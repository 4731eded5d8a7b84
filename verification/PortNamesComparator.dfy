/** The comparator of port names: two iterators that feed virtual zeros so that digit runs line up. */
module PortNamesComparator {
  import opened PortNameOrder
  import opened PortNameLaws

  class Iterator {
    const value: Name
    const length: nat
    var pos: nat
    var stuffedZeros: nat
    var zerosToFeed: nat

    ghost predicate Valid()
      reads this
    {
      && length == |value|
      && (zerosToFeed > 0 ==> pos < length)
    }

    constructor (value: Name)
      ensures Valid() && this.value == value && length == |value| && pos == stuffedZeros == zerosToFeed == 0
    {
      this.value, this.length := value, |value|;
      pos, stuffedZeros, zerosToFeed := 0, 0, 0;
    }

    /** The characters from the current one on, with the zeros that are still to be fed. */
    ghost function Current(): Name
      requires Valid() && pos < length
      reads this
    {
      Zeros(zerosToFeed) + value[pos..]
    }

    /** The characters after the current one. */
    ghost function Rest(): Name
      requires Valid()
      reads this
    {
      if zerosToFeed > 0 then Zeros(zerosToFeed - 1) + value[pos..]
      else if pos < length then value[pos + 1..] else []
    }

    /** The number of digits from this position. */
    method GetNumberOfDigits() returns (result: nat)
      requires Valid() && pos < length
      ensures result == Digits(value[pos..])
    {
      result := 0;
      while IsDigit(value[pos + result])
        invariant pos + result < length
        invariant Digits(value[pos..]) == result + Digits(value[pos + result..])
        decreases length - pos - result
      {
        assert value[pos + result..][1..] == value[pos + result + 1..];
        result := result + 1;
        if pos + result == length {
          break;
        }
      }
    }

    method AddZeros(zeros: nat)
      requires Valid() && pos < length && zerosToFeed == 0
      modifies this`zerosToFeed, this`stuffedZeros
      ensures Valid() && zerosToFeed == zeros && stuffedZeros == old(stuffedZeros) + zeros
      ensures Current() == Zeros(zeros) + old(Current())
    {
      zerosToFeed := zeros;
      stuffedZeros := stuffedZeros + zeros;
    }

    method GetChar() returns (c: Char)
      requires Valid() && pos < length
      ensures c == Current()[0] && Rest() == Current()[1..]
    {
      if zerosToFeed > 0 {
        c := ZERO;
      } else {
        c := value[pos];
      }
    }

    method Next() returns (more: bool)
      requires Valid()
      modifies this`pos, this`zerosToFeed
      ensures Valid() && more == (old(Rest()) != []) == (pos < length)
      ensures more ==> Current() == old(Rest())
      ensures if old(zerosToFeed) > 0 then zerosToFeed == old(zerosToFeed) - 1 && pos == old(pos)
              else zerosToFeed == 0 && pos == old(pos) + 1
    {
      if zerosToFeed > 0 {
        zerosToFeed := zerosToFeed - 1;
      } else {
        pos := pos + 1;
      }
      more := pos < length;
    }

    function OverallLength(): nat
      reads this
    {
      length + stuffedZeros
    }
  }

  /** The result of the comparison of what is left of the two names, when the next `n - 1`
      characters belong to runs that have been lined up. */
  function Ahead(a: Name, b: Name, n: nat, tie: int): int
    requires n > 0 ==> |a| >= n - 1 && |b| >= n - 1
  {
    if n <= 1 then Walk(a, b, tie)
    else
      var d := Diff(a[..n - 1], b[..n - 1]);
      if d != 0 then d else Walk(a[n - 1..], b[n - 1..], tie)
  }

  /** The characters after the lined-up part do not start with a digit. */
  predicate LinedUp(a: Name, b: Name, n: nat)
    ensures LinedUp(a, b, n) && n > 0 ==> |a| >= n - 1 && |b| >= n - 1
  {
    n > 0 ==>
      && |a| >= n - 1 && |b| >= n - 1
      && Digits(a[n - 1..]) == 0 && Digits(b[n - 1..]) == 0
  }

  /** One character within the lined-up part, or the one behind it. */
  lemma AheadInRun(a: Name, b: Name, n: nat, tie: int)
    requires n > 0 && LinedUp(a, b, n) && a != [] && b != []
    ensures a[0] == b[0] ==> LinedUp(a[1..], b[1..], n - 1)
    ensures Ahead(a, b, n, tie) == if a[0] != b[0] then a[0] - b[0] else Ahead(a[1..], b[1..], n - 1, tie)
  {
    if n == 1 {
      assert a[0..] == a && b[0..] == b;
    } else {
      var p, q := a[..n - 1], b[..n - 1];
      assert p[1..] == a[1..][..n - 2] && q[1..] == b[1..][..n - 2];
      assert a[1..][n - 2..] == a[n - 1..] && b[1..][n - 2..] == b[n - 1..];
      assert Diff(p, q) == if a[0] != b[0] then a[0] - b[0] else Diff(p[1..], q[1..]);
      if n == 2 {
        assert Diff(p[1..], q[1..]) == 0;
        assert Ahead(a[1..], b[1..], 1, tie) == Walk(a[1..], b[1..], tie);
      }
    }
  }

  /** One character where no run is lined up and both names have equally many digits ahead. */
  lemma AheadEqual(a: Name, b: Name, tie: int)
    requires a != [] && b != [] && Digits(a) == Digits(b)
    ensures Ahead(a, b, 0, tie) == if a[0] != b[0] then a[0] - b[0] else Ahead(a[1..], b[1..], 0, tie)
  {
    if Digits(a) > 0 {
      EqualRunsStep(a, b, tie);
    }
  }

  /** Zeros are stuffed into the shorter run: both runs are now lined up. */
  lemma AheadStuffed(a: Name, b: Name, tie: int)
    requires a != [] && b != [] && Digits(a) != Digits(b)
    ensures var n := Max(Digits(a), Digits(b));
            var a', b' := Zeros(n - Digits(a)) + a, Zeros(n - Digits(b)) + b;
            && LinedUp(a', b', n + 1)
            && Ahead(a', b', n + 1, if tie != 0 then tie else (Digits(a) as int) - Digits(b)) == Ahead(a, b, 0, tie)
  {
    hide Digits, Diff, Walk;
    var n := Max(Digits(a), Digits(b));
    StuffedRun(a, n);
    StuffedRun(b, n);
    WalkAtRun(a, b, tie);
  }

  lemma StuffedRun(a: Name, n: nat)
    requires Digits(a) <= n
    ensures var s := Zeros(n - Digits(a)) + a;
            |s| >= n && s[..n] == Pad(a[..Digits(a)], n) && s[n..] == a[Digits(a)..] && Digits(s[n..]) == 0
  {
    RunFacts(a);
    hide Digits;
    var d := Digits(a);
    assert a == a[..d] + a[d..];
    assert Zeros(n - d) + a == Pad(a[..d], n) + a[d..];
  }

  /** compare: the loop steps through both names in parallel, filling up the shorter of two digit
      runs, until the names differ or one of them ends. */
  method Compare(valueA: Name, valueB: Name) returns (result: int)
    ensures result == CompareValue(valueA, valueB)
    ensures Sign(result) == NameOrder(valueA, valueB)
    ensures result == 0 <==> |valueA| == |valueB| && (valueA != [] ==> valueA[1..] == valueB[1..])
  {
    CompareRefinesKeyOrder(valueA, valueB);
    CompareIsZeroIff(valueA, valueB);
    result := CompareLoop(valueA, valueB);
  }

  method CompareLoop(valueA: Name, valueB: Name) returns (result: int)
    ensures result == CompareValue(valueA, valueB)
  {
    hide Walk, Digits, Diff, Ahead, LinedUp, CompareValue;
    var iterA := new Iterator(valueA);
    var iterB := new Iterator(valueB);
    var firstStuffedAt := 0;
    var digitsFound: nat := 0;
    Start(iterA, iterB);
    while true
      invariant iterA.value == valueA && iterB.value == valueB && iterA.Valid() && iterB.Valid()
      invariant valueA != [] && valueB != [] ==> Aligned(iterA, iterB, digitsFound)
      invariant valueA != [] && valueB != [] ==>
                  Ahead(iterA.Rest(), iterB.Rest(), digitsFound, firstStuffedAt) == CompareValue(valueA, valueB)
      invariant valueA == [] || valueB == [] ==> AtStart(iterA) && AtStart(iterB) && firstStuffedAt == 0
      // Both names are never ahead of their ends, and one of them is read further in each round.
      invariant iterA.pos <= iterA.length && iterB.pos <= iterB.length
      decreases iterA.length - iterA.pos + iterB.length - iterB.pos
    {
      ghost var a, b := iterA.Rest(), iterB.Rest();
      var more := iterA.Next();
      if more {
        more := iterB.Next();
      }
      if !more {
        AtTheEnd(valueA, valueB, a, b, digitsFound, firstStuffedAt);
        break;
      }
      var differ, d;
      differ, d, digitsFound, firstStuffedAt := CompareCharacters(iterA, iterB, digitsFound, firstStuffedAt);
      if differ {
        return d;
      }
    }
    var lengthDifference := iterA.OverallLength() - iterB.OverallLength();
    if lengthDifference == 0 {
      return firstStuffedAt;
    } else {
      return lengthDifference;
    }
  }

  /** The body of the loop: look for digit runs to line up, and compare one character. */
  method CompareCharacters(iterA: Iterator, iterB: Iterator, digits: nat, tie: int)
    returns (differ: bool, result: int, digitsFound: nat, firstStuffedAt: int)
    requires iterA != iterB && InStep(iterA, iterB, digits)
    modifies iterA`zerosToFeed, iterA`stuffedZeros, iterB`zerosToFeed, iterB`stuffedZeros
    ensures differ ==> result == old(Ahead(iterA.Current(), iterB.Current(), digits, tie))
    ensures !differ ==>
              && Aligned(iterA, iterB, digitsFound)
              && Ahead(iterA.Rest(), iterB.Rest(), digitsFound, firstStuffedAt)
                 == old(Ahead(iterA.Current(), iterB.Current(), digits, tie))
  {
    hide Walk, Digits, Diff, Ahead, LinedUp;
    // The number of lined-up characters from the current one on, and one more.
    ghost var n := digits;
    digitsFound, firstStuffedAt := digits, tie;
    if digitsFound == 0 {
      digitsFound, firstStuffedAt, n := LineUp(iterA, iterB, firstStuffedAt);
    } else {
      digitsFound := digitsFound - 1;
    }
    ghost var a, b := iterA.Current(), iterB.Current();
    if n > 0 {
      AheadInRun(a, b, n, firstStuffedAt);
    } else {
      AheadEqual(a, b, firstStuffedAt);
      NothingLinedUp(a[1..], b[1..]);
    }
    var charA := iterA.GetChar();
    var charB := iterB.GetChar();
    differ, result := charA != charB, (charA as int) - charB;
  }

  lemma NothingLinedUp(a: Name, b: Name)
    ensures LinedUp(a, b, 0)
  {}

  /** Count the digits ahead in both names and fill up the shorter run with zeros. */
  method LineUp(iterA: Iterator, iterB: Iterator, tie: int)
    returns (digitsFound: nat, firstStuffedAt: int, ghost n: nat)
    requires iterA != iterB && InStep(iterA, iterB, 0)
    modifies iterA`zerosToFeed, iterA`stuffedZeros, iterB`zerosToFeed, iterB`stuffedZeros
    ensures iterA.Valid() && iterB.Valid()
    ensures LinedUp(iterA.Current(), iterB.Current(), n) && (n == 0 || n == digitsFound + 1)
    ensures n == 0 ==> digitsFound == 0 && Digits(iterA.Current()) == Digits(iterB.Current())
    ensures Ahead(iterA.Current(), iterB.Current(), n, firstStuffedAt)
         == old(Ahead(iterA.Current(), iterB.Current(), 0, tie))
    ensures (iterA.zerosToFeed == 0 || iterB.zerosToFeed == 0)
         && iterA.zerosToFeed <= digitsFound && iterB.zerosToFeed <= digitsFound
    ensures iterA.OverallLength() - iterB.OverallLength() == |iterA.Current()| - |iterB.Current()|
  {
    hide Walk, Digits, Diff, Ahead, LinedUp;
    ghost var a, b := iterA.Current(), iterB.Current();
    assert a == iterA.value[iterA.pos..] && b == iterB.value[iterB.pos..];
    digitsFound, firstStuffedAt, n := 0, tie, 0;
    NothingLinedUp(a, b);
    var digitsA: int := iterA.GetNumberOfDigits();
    var digitsB: int := iterB.GetNumberOfDigits();
    if digitsA != digitsB {
      AheadStuffed(a, b, tie);
      if firstStuffedAt == 0 {
        firstStuffedAt := digitsA - digitsB;
      }
      if digitsA > digitsB {
        iterB.AddZeros(digitsA - digitsB);
        digitsFound := digitsA;
      } else {
        iterA.AddZeros(digitsB - digitsA);
        digitsFound := digitsB;
      }
      n := digitsFound + 1;
      assert iterA.Current() == Zeros(digitsFound - digitsA) + a;
      assert iterB.Current() == Zeros(digitsFound - digitsB) + b;
    }
  }

  /** What holds at the top of the loop: the iterators are in step, at most one of them feeds
      zeros, and it does so only within a lined-up run. */
  ghost predicate Aligned(iterA: Iterator, iterB: Iterator, digitsFound: nat)
    reads iterA, iterB
  {
    && iterA.Valid() && iterB.Valid()
    && (iterA.zerosToFeed == 0 || iterB.zerosToFeed == 0)
    && iterA.zerosToFeed <= digitsFound && iterB.zerosToFeed <= digitsFound
    && LinedUp(iterA.Rest(), iterB.Rest(), digitsFound)
    && iterA.OverallLength() - iterB.OverallLength() == |iterA.Rest()| - |iterB.Rest()|
  }

  /** The same after both have moved on to the next character. */
  ghost predicate InStep(iterA: Iterator, iterB: Iterator, digitsFound: nat)
    reads iterA, iterB
  {
    && iterA.Valid() && iterB.Valid() && iterA.pos < iterA.length && iterB.pos < iterB.length
    && (iterA.zerosToFeed == 0 || iterB.zerosToFeed == 0)
    && iterA.zerosToFeed <= Max(digitsFound, 1) - 1 && iterB.zerosToFeed <= Max(digitsFound, 1) - 1
    && LinedUp(iterA.Current(), iterB.Current(), digitsFound)
    && iterA.OverallLength() - iterB.OverallLength() == |iterA.Current()| - |iterB.Current()|
  }

  ghost predicate AtStart(iter: Iterator)
    reads iter
  {
    iter.length == |iter.value| && iter.pos == iter.stuffedZeros == iter.zerosToFeed == 0
  }

  lemma Start(iterA: Iterator, iterB: Iterator)
    requires AtStart(iterA) && AtStart(iterB)
    ensures iterA.value != [] && iterB.value != [] ==>
              Aligned(iterA, iterB, 0) &&
              Ahead(iterA.Rest(), iterB.Rest(), 0, 0) == CompareValue(iterA.value, iterB.value)
  {
    hide Walk, Digits, Diff;
  }

  /** One of the names is exhausted: the longer rest decides, and then the tie. */
  lemma AtTheEnd(valueA: Name, valueB: Name, a: Name, b: Name, n: nat, tie: int)
    requires a == [] || b == [] || valueA == [] || valueB == []
    requires valueA != [] && valueB != [] ==> LinedUp(a, b, n) && Ahead(a, b, n, tie) == CompareValue(valueA, valueB)
    ensures CompareValue(valueA, valueB) ==
            if valueA == [] || valueB == [] then |valueA| - |valueB| else if |a| == |b| then tie else |a| - |b|
  {
    hide Digits, Diff;
  }
}
