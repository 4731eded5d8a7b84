/**
  The order of port names: a name is read as digit runs and characters in turn, and two names
  are compared run by run, runs by their numeric value. Only ASCII digits are digits here.
 */
module PortNameOrder {

  /** A UTF-16 code unit. */
  type Char = c: int | 0 <= c < 0x1_0000
  type Name = seq<Char>

  const ZERO: Char := 48

  predicate IsDigit(c: Char) {
    48 <= c <= 57
  }

  predicate AllDigits(s: Name) {
    forall c <- s :: IsDigit(c)
  }

  /** The length of the digit run at the start. */
  function Digits(s: Name): nat
    ensures Digits(s) <= |s|
  {
    if s == [] || !IsDigit(s[0]) then 0 else 1 + Digits(s[1..])
  }

  function Zeros(n: nat): Name {
    seq(n, _ => ZERO)
  }

  function Pow10(n: nat): nat {
    if n == 0 then 1 else 10 * Pow10(n - 1)
  }

  /** The numeric value of a digit run; the empty run counts as 0. */
  function Value(run: Name): int {
    if run == [] then 0 else (run[0] - ZERO) * Pow10(|run| - 1) + Value(run[1..])
  }

  function Max(a: nat, b: nat): nat {
    if a < b then b else a
  }

  /** A run filled up with leading zeros. */
  function Pad(run: Name, n: nat): Name
    requires |run| <= n
  {
    Zeros(n - |run|) + run
  }

  /** The first difference of two strings of the same length. */
  function Diff(p: Name, q: Name): int
    requires |p| == |q|
  {
    if p == [] then 0 else if p[0] != q[0] then p[0] - q[0] else Diff(p[1..], q[1..])
  }

  /** The comparison of two names from the second character on, run by run. `tie` is the first
      difference in length of two runs of the same value, if there has been one. */
  function Walk(s: Name, t: Name, tie: int): int
    decreases |s| + |t|, 1
  {
    if s == [] || t == [] then (if |s| == |t| then tie else |s| - |t|)
    else if Digits(s) == 0 && Digits(t) == 0 then
      if s[0] != t[0] then s[0] - t[0] else Walk(s[1..], t[1..], tie)
    else WalkRun(s, t, tie)
  }

  /** A digit run starts in one of the names, or in both. */
  function WalkRun(s: Name, t: Name, tie: int): int
    requires Digits(s) > 0 || Digits(t) > 0
    decreases |s| + |t|, 0
  {
    var ds, dt := Digits(s), Digits(t);
    var n := Max(ds, dt);
    var d := Diff(Pad(s[..ds], n), Pad(t[..dt], n));
    if d != 0 then d else Walk(s[ds..], t[dt..], if tie != 0 then tie else ds - dt)
  }

  /** The number that compare returns; the first character of a name is never looked at. */
  function CompareValue(a: Name, b: Name): int {
    if a == [] || b == [] then |a| - |b| else Walk(a[1..], b[1..], 0)
  }

  // ---- Facts about digit runs ----

  lemma {:induction false} RunFacts(s: Name)
    ensures AllDigits(s[..Digits(s)])
    ensures Digits(s[Digits(s)..]) == 0
    ensures Digits(s) > 0 ==> Digits(s[1..]) == Digits(s) - 1
  {
    if s != [] && IsDigit(s[0]) {
      RunFacts(s[1..]);
      assert s[..Digits(s)] == [s[0]] + s[1..][..Digits(s[1..])];
      assert s[Digits(s)..] == s[1..][Digits(s[1..])..];
    }
  }

  lemma {:induction false} DigitsOfConcat(run: Name, rest: Name)
    requires AllDigits(run)
    ensures Digits(run + rest) == |run| + Digits(rest)
  {
    if run == [] {
      assert run + rest == rest;
    } else {
      assert (run + rest)[1..] == run[1..] + rest;
      DigitsOfConcat(run[1..], rest);
    }
  }

  lemma {:induction false} ValueBound(run: Name)
    requires AllDigits(run)
    ensures 0 <= Value(run) < Pow10(|run|)
  {
    if run != [] {
      ValueBound(run[1..]);
      assert IsDigit(run[0]) by { assert run[0] in run; }
      Scale(run[0] - ZERO, Pow10(|run| - 1));
    }
  }

  lemma Scale(d: int, p: nat)
    ensures d <= 9 ==> d * p <= 9 * p
    ensures 0 <= d ==> 0 <= d * p
    ensures 1 <= d ==> p <= d * p
  {}

  lemma {:induction false} ValueOfPadded(k: nat, run: Name)
    ensures Value(Zeros(k) + run) == Value(run)
  {
    if k == 0 {
      assert Zeros(0) + run == run;
    } else {
      var padded := Zeros(k) + run;
      assert padded[1..] == Zeros(k - 1) + run;
      ValueOfPadded(k - 1, run);
    }
  }

  function Sign(x: int): int {
    if x < 0 then -1 else if x > 0 then 1 else 0
  }

  /** Runs of the same length are ordered by their first difference as by their values. */
  lemma {:induction false} DiffIsNumeric(p: Name, q: Name)
    requires |p| == |q| && AllDigits(p) && AllDigits(q)
    ensures Sign(Diff(p, q)) == Sign(Value(p) - Value(q))
  {
    if p != [] {
      ValueBound(p[1..]);
      ValueBound(q[1..]);
      DiffIsNumeric(p[1..], q[1..]);
      var n := Pow10(|p| - 1);
      var x, y := p[0] - ZERO, q[0] - ZERO;
      assert x * n - y * n == (x - y) * n;
      Scale(x - y, n);
      Scale(y - x, n);
      assert (y - x) * n == -((x - y) * n);
    }
  }

  lemma {:induction false} DiffZero(p: Name, q: Name)
    requires |p| == |q|
    ensures Diff(p, q) == 0 <==> p == q
    ensures Diff(p, q) == -Diff(q, p)
  {
    if p != [] {
      DiffZero(p[1..], q[1..]);
      assert p == [p[0]] + p[1..] && q == [q[0]] + q[1..];
    }
  }

  lemma PaddedRun(s: Name, n: nat)
    requires Digits(s) <= n
    ensures var p := Pad(s[..Digits(s)], n);
            |p| == n && AllDigits(p) && Value(p) == Value(s[..Digits(s)])
  {
    RunFacts(s);
    ValueOfPadded(n - Digits(s), s[..Digits(s)]);
  }

  /** Runs of the same length may also be compared character by character. */
  lemma EqualRunsStep(s: Name, t: Name, tie: int)
    requires Digits(s) == Digits(t) > 0
    ensures Walk(s, t, tie) == if s[0] != t[0] then s[0] - t[0] else Walk(s[1..], t[1..], tie)
  {
    var d := Digits(s);
    var p, q := s[..d], t[..d];
    var p', q' := s[1..][..d - 1], t[1..][..d - 1];
    EqualRuns(s, t, tie);
    assert p[1..] == p' && q[1..] == q';
    assert Diff(p, q) == if s[0] != t[0] then s[0] - t[0] else Diff(p', q');
    if s[0] == t[0] {
      RunFacts(s);
      RunFacts(t);
      assert s[1..][d - 1..] == s[d..] && t[1..][d - 1..] == t[d..];
      if d == 1 {
        assert p' == q' == [];
      } else {
        EqualRuns(s[1..], t[1..], tie);
      }
    }
  }

  lemma EqualRuns(s: Name, t: Name, tie: int)
    requires Digits(s) == Digits(t) > 0
    ensures var d := Digits(s);
            var diff := Diff(s[..d], t[..d]);
            Walk(s, t, tie) == if diff != 0 then diff else Walk(s[d..], t[d..], tie)
  {
    var d := Digits(s);
    assert Pad(s[..d], d) == s[..d] && Pad(t[..d], d) == t[..d];
    assert Walk(s, t, tie) == WalkRun(s, t, tie);
  }
}
