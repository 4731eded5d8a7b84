/** compare is the lexicographic order of keys, a lawful comparator, and orders numbers naturally. */
module PortNameLaws {
  import opened PortNameOrder

  // ---- Keys ----

  /** The value of each digit run and the character after it, in turn. A name that ends has the
      shorter key, and so comes before every run and every character. */
  function Key(s: Name): seq<int>
    decreases |s|, 1
  {
    if s == [] then [] else [Value(s[..Digits(s)])] + KeyAfterRun(s[Digits(s)..])
  }

  function KeyAfterRun(s: Name): seq<int>
    decreases |s|, 0
  {
    if s == [] then [] else [s[0] as int] + Key(s[1..])
  }

  /** The lengths of the digit runs. */
  function Runs(s: Name): seq<int>
    decreases |s|, 1
  {
    if s == [] then [] else [Digits(s)] + RunsAfterRun(s[Digits(s)..])
  }

  function RunsAfterRun(s: Name): seq<int>
    decreases |s|, 0
  {
    if s == [] then [] else Runs(s[1..])
  }

  function Lex(a: seq<int>, b: seq<int>): int {
    if a == [] || b == [] then Sign(|a| - |b|)
    else if a[0] != b[0] then Sign(a[0] - b[0])
    else Lex(a[1..], b[1..])
  }

  /** The first of two answers that is not 0. */
  function First(x: int, y: int): int {
    if x != 0 then x else y
  }

  /** The order of names: first the keys, then the lengths of the digit runs. */
  function NameOrder(a: Name, b: Name): int {
    First(Lex(NameKey(a), NameKey(b)), Lex(NameRuns(a), NameRuns(b)))
  }

  /** The first character has no influence; a name without one comes first. */
  function NameKey(a: Name): seq<int> {
    if a == [] then [] else [0] + Key(a[1..])
  }

  function NameRuns(a: Name): seq<int> {
    if a == [] then [] else Runs(a[1..])
  }

  // ---- Walk refines the order of keys ----

  /** What Walk returns, up to its size. */
  function WalkOrder(s: Name, t: Name, tie: int): int {
    First(Lex(Key(s), Key(t)), First(Sign(tie), Lex(Runs(s), Runs(t))))
  }

  lemma {:induction false} WalkIsKeyOrder(s: Name, t: Name, tie: int)
    ensures Sign(Walk(s, t, tie)) == WalkOrder(s, t, tie)
    decreases |s| + |t|
  {
    hide Walk, WalkOrder, Digits;
    if s == [] || t == [] {
      OrderAtTheEnd(s, t, tie);
    } else if Digits(s) == 0 && Digits(t) == 0 {
      WalkIsKeyOrder(s[1..], t[1..], tie);
      OrderAtNonDigits(s, t, tie);
    } else {
      var ds: int, dt: int := Digits(s), Digits(t);
      WalkIsKeyOrder(s[ds..], t[dt..], if tie != 0 then tie else ds - dt);
      OrderAtRun(s, t, tie);
    }
  }

  lemma OrderAtTheEnd(s: Name, t: Name, tie: int)
    requires s == [] || t == []
    ensures Sign(Walk(s, t, tie)) == WalkOrder(s, t, tie)
  {
    hide Digits, Value;
  }

  lemma OrderAtNonDigits(s: Name, t: Name, tie: int)
    requires s != [] && t != [] && Digits(s) == 0 && Digits(t) == 0
    requires Sign(Walk(s[1..], t[1..], tie)) == WalkOrder(s[1..], t[1..], tie)
    ensures Sign(Walk(s, t, tie)) == WalkOrder(s, t, tie)
  {
    hide Key, Runs, Lex, KeyAfterRun, RunsAfterRun, Digits, Value, Walk;
    KeyOfNonDigits(s, t);
    WalkAtNonDigits(s, t, tie);
  }

  lemma OrderAtRun(s: Name, t: Name, tie: int)
    requires s != [] && t != [] && (Digits(s) > 0 || Digits(t) > 0)
    requires var r, u := s[Digits(s)..], t[Digits(t)..];
             var tie' := if tie != 0 then tie else Digits(s) - Digits(t);
             Sign(Walk(r, u, tie')) == WalkOrder(r, u, tie')
    ensures Sign(Walk(s, t, tie)) == WalkOrder(s, t, tie)
  {
    hide Key, Runs, Lex, KeyAfterRun, RunsAfterRun, Digits, Value, Diff, Pad, Walk;
    BehindARun(s, t);
    RunsAreOrderedByValue(s, t);
    KeyOfRun(s, t);
    WalkAtRun(s, t, tie);
  }

  lemma BehindARun(s: Name, t: Name)
    ensures var r, u := s[Digits(s)..], t[Digits(t)..];
            && Lex(KeyAfterRun(r), KeyAfterRun(u)) == Lex(Key(r), Key(u))
            && (Lex(Key(r), Key(u)) == 0 ==> Lex(RunsAfterRun(r), RunsAfterRun(u)) == Lex(Runs(r), Runs(u)))
  {
    hide Key, Runs, Lex, KeyAfterRun, RunsAfterRun, Digits, Value;
    RunFacts(s);
    RunFacts(t);
    AfterRun(s[Digits(s)..], t[Digits(t)..]);
  }

  lemma WalkAtNonDigits(s: Name, t: Name, tie: int)
    requires s != [] && t != [] && Digits(s) == 0 && Digits(t) == 0
    ensures Walk(s, t, tie) == if s[0] != t[0] then s[0] - t[0] else Walk(s[1..], t[1..], tie)
  {}

  lemma KeyOfNonDigits(s: Name, t: Name)
    requires s != [] && t != [] && Digits(s) == 0 && Digits(t) == 0
    ensures Lex(Key(s), Key(t)) == First(Sign((s[0] as int) - t[0]), Lex(Key(s[1..]), Key(t[1..])))
    ensures Lex(Runs(s), Runs(t)) == Lex(Runs(s[1..]), Runs(t[1..]))
  {
    hide Lex, Digits, Value;
    NonDigitKey(s);
    NonDigitKey(t);
    LexCons(0, 0, KeyAfterRun(s), KeyAfterRun(t));
    LexCons(s[0], t[0], Key(s[1..]), Key(t[1..]));
    LexCons(0, 0, Runs(s[1..]), Runs(t[1..]));
  }

  lemma WalkAtRun(s: Name, t: Name, tie: int)
    requires s != [] && t != [] && (Digits(s) > 0 || Digits(t) > 0)
    ensures Walk(s, t, tie) == WalkRun(s, t, tie)
  {}

  lemma RunsAreOrderedByValue(s: Name, t: Name)
    ensures var n := Max(Digits(s), Digits(t));
            Sign(Diff(Pad(s[..Digits(s)], n), Pad(t[..Digits(t)], n)))
            == Sign(Value(s[..Digits(s)]) - Value(t[..Digits(t)]))
  {
    hide Digits, Value, Diff;
    var n := Max(Digits(s), Digits(t));
    PaddedRun(s, n);
    PaddedRun(t, n);
    DiffIsNumeric(Pad(s[..Digits(s)], n), Pad(t[..Digits(t)], n));
  }

  lemma KeyOfRun(s: Name, t: Name)
    requires s != [] && t != []
    ensures var ds, dt := Digits(s), Digits(t);
            && Lex(Key(s), Key(t)) == First(Sign(Value(s[..ds]) - Value(t[..dt])),
                                            Lex(KeyAfterRun(s[ds..]), KeyAfterRun(t[dt..])))
            && Lex(Runs(s), Runs(t)) == First(Sign(ds - dt), Lex(RunsAfterRun(s[ds..]), RunsAfterRun(t[dt..])))
  {
    hide Digits, Value, Lex, KeyAfterRun, RunsAfterRun;
    var ds, dt := Digits(s), Digits(t);
    LexCons(Value(s[..ds]), Value(t[..dt]), KeyAfterRun(s[ds..]), KeyAfterRun(t[dt..]));
    LexCons(ds, dt, RunsAfterRun(s[ds..]), RunsAfterRun(t[dt..]));
  }

  lemma LexCons(x: int, y: int, a: seq<int>, b: seq<int>)
    ensures Lex([x] + a, [y] + b) == First(Sign(x - y), Lex(a, b))
  {
    assert ([x] + a)[1..] == a && ([y] + b)[1..] == b;
  }

  lemma NonDigitKey(s: Name)
    requires s != [] && Digits(s) == 0
    ensures Key(s) == [0] + KeyAfterRun(s) && Runs(s) == [0] + Runs(s[1..])
  {
    assert s[..0] == [] && s[0..] == s;
  }

  /** Behind a run the keys compare as if an empty run followed. */
  lemma AfterRun(s: Name, t: Name)
    requires Digits(s) == 0 && Digits(t) == 0
    ensures Lex(KeyAfterRun(s), KeyAfterRun(t)) == Lex(Key(s), Key(t))
    ensures Lex(Key(s), Key(t)) == 0 ==> Lex(RunsAfterRun(s), RunsAfterRun(t)) == Lex(Runs(s), Runs(t))
  {
    if s != [] && t != [] {
      NonDigitKey(s);
      NonDigitKey(t);
      LexCons(0, 0, KeyAfterRun(s), KeyAfterRun(t));
      LexCons(0, 0, Runs(s[1..]), Runs(t[1..]));
    }
  }

  /** The refinement: for all names compare has the sign of the order of keys and runs. */
  lemma CompareRefinesKeyOrder(a: Name, b: Name)
    ensures Sign(CompareValue(a, b)) == NameOrder(a, b)
  {
    if a != [] && b != [] {
      WalkIsKeyOrder(a[1..], b[1..], 0);
      LexCons(0, 0, Key(a[1..]), Key(b[1..]));
    }
  }

  // ---- Comparator laws ----

  /** Exact antisymmetry, not only of the signs. */
  lemma {:induction false} WalkIsAntisymmetric(s: Name, t: Name, tie: int)
    ensures Walk(t, s, -tie) == -Walk(s, t, tie)
    decreases |s| + |t|
  {
    if s == [] || t == [] {
    } else if Digits(s) == 0 && Digits(t) == 0 {
      hide Digits, Diff, Pad;
      WalkIsAntisymmetric(s[1..], t[1..], tie);
    } else {
      hide Digits, Diff, Pad;
      var ds: int, dt: int := Digits(s), Digits(t);
      var n := Max(ds, dt);
      var tie': int := if tie != 0 then tie else ds - dt;
      DiffZero(Pad(s[..ds], n), Pad(t[..dt], n));
      WalkIsAntisymmetric(s[ds..], t[dt..], tie');
    }
  }

  lemma CompareIsAntisymmetric(a: Name, b: Name)
    ensures CompareValue(b, a) == -CompareValue(a, b)
  {
    if a != [] && b != [] {
      WalkIsAntisymmetric(a[1..], b[1..], 0);
    }
  }

  lemma {:induction false} LexLaws(a: seq<int>, b: seq<int>, c: seq<int>)
    ensures Lex(a, b) == 0 <==> a == b
    ensures Lex(a, b) <= 0 && Lex(b, c) <= 0 ==> Lex(a, c) <= 0
    ensures Lex(a, b) <= 0 && Lex(b, c) <= 0 && Lex(a, c) == 0 ==> Lex(a, b) == 0 && Lex(b, c) == 0
  {
    if a != [] && b != [] {
      assert a == [a[0]] + a[1..] && b == [b[0]] + b[1..];
      if c != [] {
        LexLaws(a[1..], b[1..], c[1..]);
      } else {
        LexLaws(a[1..], b[1..], []);
      }
    }
  }

  /** compare is transitive, also where one of the two steps is strict. */
  lemma CompareIsTransitive(a: Name, b: Name, c: Name)
    requires CompareValue(a, b) <= 0 && CompareValue(b, c) <= 0
    ensures CompareValue(a, c) <= 0
    ensures CompareValue(a, b) < 0 || CompareValue(b, c) < 0 ==> CompareValue(a, c) < 0
  {
    CompareRefinesKeyOrder(a, b);
    CompareRefinesKeyOrder(b, c);
    CompareRefinesKeyOrder(a, c);
    LexLaws(NameKey(a), NameKey(b), NameKey(c));
    LexLaws(NameKey(b), NameKey(c), NameKey(a));
    LexLaws(NameRuns(a), NameRuns(b), NameRuns(c));
    LexLaws(NameRuns(b), NameRuns(c), NameRuns(a));
  }

  /** Names that compare equal are equal from the second character on, and of the same length. */
  lemma CompareIsZeroIff(a: Name, b: Name)
    ensures CompareValue(a, b) == 0 <==> |a| == |b| && (a != [] ==> a[1..] == b[1..])
  {
    CompareRefinesKeyOrder(a, b);
    LexLaws(NameKey(a), NameKey(b), []);
    LexLaws(NameRuns(a), NameRuns(b), []);
    if a != [] && b != [] && CompareValue(a, b) == 0 {
      assert NameKey(a)[1..] == Key(a[1..]) && NameKey(b)[1..] == Key(b[1..]);
      KeyAndRunsDetermine(a[1..], b[1..]);
    }
  }

  /** Values and lengths of the runs and the characters between them determine a name. */
  lemma {:induction false} KeyAndRunsDetermine(s: Name, t: Name)
    requires Key(s) == Key(t) && Runs(s) == Runs(t)
    ensures s == t
    decreases |s|
  {
    hide Value, Digits;
    if s != [] && t != [] {
      FirstRunDetermined(s, t);
      var d := Digits(s);
      var r, u := s[d..], t[d..];
      if r != [] && u != [] {
        assert KeyAfterRun(r)[1..] == Key(r[1..]) && KeyAfterRun(u)[1..] == Key(u[1..]);
        KeyAndRunsDetermine(r[1..], u[1..]);
        assert KeyAfterRun(r)[0] == r[0] && KeyAfterRun(u)[0] == u[0];
        assert r == [r[0]] + r[1..] && u == [u[0]] + u[1..];
      }
      assert s == s[..d] + r && t == t[..d] + u;
    }
  }

  lemma FirstRunDetermined(s: Name, t: Name)
    requires s != [] && t != [] && Key(s) == Key(t) && Runs(s) == Runs(t)
    ensures var d := Digits(s);
            && Digits(t) == d && s[..d] == t[..d]
            && KeyAfterRun(s[d..]) == KeyAfterRun(t[d..]) && RunsAfterRun(s[d..]) == RunsAfterRun(t[d..])
  {
    hide Key, Runs, KeyAfterRun, RunsAfterRun, Value, Digits, Diff;
    KeyParts(s);
    KeyParts(t);
    var d := Digits(s);
    RunFacts(s);
    RunFacts(t);
    DiffIsNumeric(s[..d], t[..d]);
    DiffZero(s[..d], t[..d]);
  }

  /** The first run of a name and what comes after it. */
  lemma KeyParts(s: Name)
    requires s != []
    ensures |Key(s)| > 0 && Key(s)[0] == Value(s[..Digits(s)]) && Key(s)[1..] == KeyAfterRun(s[Digits(s)..])
    ensures |Runs(s)| > 0 && Runs(s)[0] == Digits(s) && Runs(s)[1..] == RunsAfterRun(s[Digits(s)..])
  {
    hide KeyAfterRun, RunsAfterRun, Value, Digits;
  }

  // ---- Natural order of numbers ----

  /** A common beginning that does not end within a digit run has no influence. */
  lemma {:induction false} CommonBeginning(p: Name, s: Name, t: Name, tie: int)
    requires p != [] ==> !IsDigit(p[|p| - 1])
    ensures Walk(p + s, p + t, tie) == Walk(s, t, tie)
  {
    if p == [] {
      assert p + s == s && p + t == t;
    } else {
      var p' := p[1..];
      assert (p + s)[1..] == p' + s && (p + t)[1..] == p' + t;
      CommonBeginning(p', s, t, tie);
      RunInside(p, s);
      RunInside(p, t);
      if Digits(p) > 0 {
        EqualRunsStep(p + s, p + t, tie);
      }
    }
  }

  lemma {:induction false} RunInside(p: Name, s: Name)
    requires p != [] && !IsDigit(p[|p| - 1])
    ensures Digits(p + s) == Digits(p)
  {
    assert (p + s)[0] == p[0];
    if IsDigit(p[0]) {
      assert (p + s)[1..] == p[1..] + s;
      RunInside(p[1..], s);
    }
  }

  /** Names with a common beginning that ends in a non-digit, followed by digits only, are ordered
      by the numbers, however long; the same number with fewer leading zeros comes first. */
  lemma NumbersAreOrderedNaturally(p: Name, x: Name, y: Name)
    requires p != [] && !IsDigit(p[|p| - 1])
    requires AllDigits(x) && AllDigits(y) && x != [] && y != []
    ensures Sign(CompareValue(p + x, p + y)) == First(Sign(Value(x) - Value(y)), Sign(|x| - |y|))
    ensures Value(x) == Value(y) ==> CompareValue(p + x, p + y) == |x| - |y|
  {
    hide Walk, Value, Digits, Pow10;
    var q := p[1..];
    assert q != [] ==> q[|q| - 1] == p[|p| - 1];
    SameAsWalk(p, x, y);
    CommonBeginning(q, x, y, 0);
    WalkOfNumbers(x, y);
  }

  lemma SameAsWalk(p: Name, x: Name, y: Name)
    requires p != []
    ensures CompareValue(p + x, p + y) == Walk(p[1..] + x, p[1..] + y, 0)
  {
    hide Walk;
    assert (p + x)[1..] == p[1..] + x && (p + y)[1..] == p[1..] + y;
  }

  lemma WalkOfNumbers(x: Name, y: Name)
    requires AllDigits(x) && AllDigits(y) && x != [] && y != []
    ensures Sign(Walk(x, y, 0)) == First(Sign(Value(x) - Value(y)), Sign(|x| - |y|))
    ensures Value(x) == Value(y) ==> Walk(x, y, 0) == |x| - |y|
  {
    hide Value, Digits, Diff;
    OnlyDigits(x);
    OnlyDigits(y);
    RunsAreOrderedByValue(x, y);
    assert Walk(x, y, 0) == WalkRun(x, y, 0);
    assert Walk([], [], |x| - |y|) == |x| - |y|;
  }

  lemma OnlyDigits(x: Name)
    requires AllDigits(x)
    ensures Digits(x) == |x| && x[..Digits(x)] == x && x[Digits(x)..] == []
  {
    DigitsOfConcat(x, []);
    assert x + [] == x;
  }

  // ---- Names with decimal numbers ----

  /** The decimal digits of a number, as UTF-16 code units. */
  function Decimal(n: nat): Name {
    (if n < 10 then [] else Decimal(n / 10)) + [48 + n % 10]
  }

  lemma {:induction false} ValueOfLast(x: Name, c: Char)
    ensures Value(x + [c]) == 10 * Value(x) + (c - 48)
  {
    if x == [] {
      assert [c][1..] == [];
    } else {
      ValueOfLast(x[1..], c);
      assert (x + [c])[1..] == x[1..] + [c];
      var d: int := x[0] as int - 48;
      TenTimes(d, Pow10(|x| - 1));
    }
  }

  lemma TenTimes(d: int, p: nat)
    ensures d * (10 * p) == 10 * (d * p)
  {}

  /** They are digits, they have that value, and the first one is not 0 unless the number is. */
  lemma {:induction false} DecimalDenotes(n: nat)
    ensures AllDigits(Decimal(n)) && Value(Decimal(n)) == n
    ensures Decimal(n) != [] && (n > 0 ==> 49 <= Decimal(n)[0] <= 57)
  {
    var c: Char := 48 + n % 10;
    if n >= 10 {
      DecimalDenotes(n / 10);
      ValueOfLast(Decimal(n / 10), c);
    } else {
      ValueOfLast([], c);
      assert [] + [c] == [c];
    }
  }

  /** Behind a common beginning that does not end in a decimal digit, names are ordered as their
      numbers are, for all numbers; of the same number the one without a leading zero comes first. */
  lemma DecimalsAreOrdered(p: Name, m: nat, n: nat)
    requires p != [] && !(48 <= p[|p| - 1] <= 57)
    ensures Sign(CompareValue(p + Decimal(m), p + Decimal(n))) == Sign(m - n)
    ensures CompareValue(p + Decimal(n), p + ([48] + Decimal(n))) == -1
  {
    hide CompareValue, Decimal;
    DecimalDenotes(m);
    DecimalDenotes(n);
    NumbersAreOrderedNaturally(p, Decimal(m), Decimal(n));
    if m == n {
      assert CompareValue(p + Decimal(m), p + Decimal(n)) == 0;
    }
    LeadingZero(Decimal(n));
    NumbersAreOrderedNaturally(p, Decimal(n), [48] + Decimal(n));
  }

  lemma LeadingZero(x: Name)
    requires AllDigits(x)
    ensures AllDigits([48] + x) && Value([48] + x) == Value(x)
  {
    assert ([48] + x)[1..] == x;
  }

  /** A character that is no decimal digit. */
  predicate Other(c: Char) {
    c < 48 || c > 57
  }

  /** Other characters are ordered by their code units, whatever follows them. */
  lemma CharactersAreOrdered(p: Name, c: Char, x: Name, d: Char, y: Name)
    requires p != [] && Other(p[|p| - 1]) && Other(c) && Other(d) && c != d
    ensures CompareValue(p + ([c] + x), p + ([d] + y)) == c - d
  {
    hide Digits;
    BehindTheBeginning(p, [c] + x, [d] + y);
    NoRun(c, x);
    NoRun(d, y);
  }

  /** A name comes before every longer name that it is the beginning of. */
  lemma BeginningsComeFirst(p: Name, x: Name)
    requires p != [] && Other(p[|p| - 1])
    ensures CompareValue(p, p + x) == -|x|
  {
    BehindTheBeginning(p, [], x);
    assert p + [] == p;
  }

  /** A positive number comes after every other character. */
  lemma NumbersComeAfterCharacters(p: Name, n: nat, x: Name, c: Char, y: Name)
    requires p != [] && Other(p[|p| - 1]) && Other(c) && n > 0
    ensures CompareValue(p + (Decimal(n) + x), p + ([c] + y)) > 0
  {
    hide Walk, Decimal, Digits, Value;
    var s, t := Decimal(n) + x, [c] + y;
    BehindTheBeginning(p, s, t);
    DecimalDenotes(n);
    StartsPositive(s);
    NoRun(c, y);
    WalkIsKeyOrder(s, t, 0);
    KeyOfRun(s, t);
    EmptyRun(t);
  }

  lemma BehindTheBeginning(p: Name, s: Name, t: Name)
    requires p != [] && Other(p[|p| - 1])
    ensures CompareValue(p + s, p + t) == Walk(s, t, 0)
  {
    hide Walk;
    var q := p[1..];
    assert q != [] ==> q[|q| - 1] == p[|p| - 1];
    SameAsWalk(p, s, t);
    CommonBeginning(q, s, t, 0);
  }

  lemma NoRun(c: Char, x: Name)
    requires Other(c)
    ensures Digits([c] + x) == 0 && ([c] + x)[1..] == x
  {}

  lemma EmptyRun(t: Name)
    ensures Digits(t) == 0 ==> Value(t[..Digits(t)]) == 0
  {}

  lemma StartsPositive(s: Name)
    requires s != [] && 49 <= s[0] <= 57
    ensures Value(s[..Digits(s)]) > 0
  {
    RunFacts(s);
    var run := s[..Digits(s)];
    assert run != [] && run[0] == s[0];
    assert AllDigits(run[1..]) by { assert forall c <- run[1..] :: c in run; }
    ValueBound(run[1..]);
    PowPositive(|run| - 1);
    Scale(run[0] - 48, Pow10(|run| - 1));
  }

  lemma {:induction false} PowPositive(n: nat)
    ensures Pow10(n) > 0
  {
    if n > 0 {
      PowPositive(n - 1);
    }
  }
}
