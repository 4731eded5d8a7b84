/**
  Whole histories of calls on devices: a termios and a DCB, edited in place with their own flags
  and fields. What LineTheorems proves of lines is carried over to them.
 */
module DeviceHistories {
  import opened Prelude
  import opened LineSettings
  import opened LineTheorems
  import T = TermiosSettings
  import D = DcbSettings

  /** The simulation on devices: a termios and a DCB that stand for the same line are given the same
      words. Both give the same answers, still stand for the same line, the stop field of the DCB
      still fits its data bits, and getParams gives the same word from both or fails on both. */
  method RunBoth(t: T.Device, d: D.Device, ws: seq<Word>, groups: Word)
    returns (termiosOk: seq<bool>, dcbOk: seq<bool>, read: (bool, Word), dcbRead: (bool, Word))
    requires t.faithful && d.faithful && D.Consistent(d.attrs) && T.LineOf(t.attrs, true) == D.LineOf(d.attrs)
    requires forall w <- ws :: FlowAgrees(w) || HopelessBeforeFlow(w)
    modifies t, d
    ensures termiosOk == dcbOk && |termiosOk| == |ws|
    ensures D.Consistent(d.attrs) && T.LineOf(t.attrs, true) == D.LineOf(d.attrs)
    ensures read.0 == dcbRead.0 && (read.0 ==> read.1 == dcbRead.1)
    ensures History(termiosOk, T.LineOf(t.attrs, true)) == Run(Termios(true), old(T.LineOf(t.attrs, true)), ws)
  {
    hide T.LineOf, D.LineOf, D.Consistent, Encode, D.Read, SetParams, Legal, T.Untouched;
    ghost var line := T.LineOf(t.attrs, true);
    termiosOk, dcbOk := [], [];
    for i := 0 to |ws|
      invariant termiosOk == dcbOk && |termiosOk| == i
      invariant D.Consistent(d.attrs) && T.LineOf(t.attrs, true) == D.LineOf(d.attrs)
      invariant History(termiosOk, T.LineOf(t.attrs, true)) == Run(Termios(true), line, ws[..i])
    {
      BackendsAgreeIff(ws[i]);
      var ok := T.SetParameters(t, true, ws[i]);
      termiosOk := termiosOk + [ok];
      ok := D.SetParameters(d, ws[i]);
      dcbOk := dcbOk + [ok];
      assert ws[..i + 1][..i] == ws[..i];
    }
    assert ws[..|ws|] == ws;
    D.ReadIsEncode(d.attrs, groups);
    var ok, word := T.GetParams(t, true, groups);
    read := (ok, word);
    ok, word := D.GetParams(d, groups);
    dcbRead := (ok, word);
  }

  /** Last writer wins on a termios: if all calls are accepted, getParams gives the code that was set
      last for each group, or the one the device had. */
  method RunTermios(t: T.Device, hasStick: bool, ws: seq<Word>) returns (answers: seq<bool>, ok: bool, word: Word)
    requires t.faithful
    modifies t
    ensures History(answers, T.LineOf(t.attrs, hasStick)) == Run(Termios(hasStick), old(T.LineOf(t.attrs, hasStick)), ws)
    ensures (forall a <- answers :: a) ==>
              var last := LastCodes(old(T.LineOf(t.attrs, hasStick)), ws);
              (ok <==> last.Some?) && (ok ==> Some(word) == last)
  {
    hide T.LineOf, Encode, SetParams, Legal, T.Untouched, LastCodes;
    ghost var line := T.LineOf(t.attrs, hasStick);
    T.LinesAreValid(t.attrs, hasStick);
    answers := [];
    for i := 0 to |ws|
      invariant History(answers, T.LineOf(t.attrs, hasStick)) == Run(Termios(hasStick), line, ws[..i])
    {
      ok := T.SetParameters(t, hasStick, ws[i]);
      answers := answers + [ok];
      assert ws[..i + 1][..i] == ws[..i];
    }
    assert ws[..|ws|] == ws;
    ok, word := T.GetParams(t, hasStick, ALL_GROUPS);
    AllAcceptedIff(Termios(hasStick), line, ws);
    if forall a <- answers :: a {
      LastWriterWins(Termios(hasStick), line, ws);
    }
  }

  /** The same on a DCB. */
  method RunDcb(d: D.Device, ws: seq<Word>) returns (answers: seq<bool>, ok: bool, word: Word)
    requires d.faithful && D.Consistent(d.attrs)
    modifies d
    ensures D.Consistent(d.attrs)
    ensures History(answers, D.LineOf(d.attrs)) == Run(Dcb, old(D.LineOf(d.attrs)), ws)
    ensures (forall a <- answers :: a) ==>
              var last := LastCodes(old(D.LineOf(d.attrs)), ws);
              (ok <==> last.Some?) && (ok ==> Some(word) == last)
  {
    hide D.LineOf, D.Consistent, D.Read, Encode, SetParams, Legal, LastCodes;
    ghost var line := D.LineOf(d.attrs);
    D.LinesAreValid(d.attrs);
    answers := [];
    for i := 0 to |ws|
      invariant D.Consistent(d.attrs)
      invariant History(answers, D.LineOf(d.attrs)) == Run(Dcb, line, ws[..i])
    {
      ok := D.SetParameters(d, ws[i]);
      answers := answers + [ok];
      assert ws[..i + 1][..i] == ws[..i];
    }
    assert ws[..|ws|] == ws;
    D.ReadIsEncode(d.attrs, ALL_GROUPS);
    ok, word := D.GetParams(d, ALL_GROUPS);
    AllAcceptedIff(Dcb, line, ws);
    if forall a <- answers :: a {
      LastWriterWins(Dcb, line, ws);
    }
  }
}
