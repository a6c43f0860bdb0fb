/** The recommended progressive script: jpeg_simple_progression fills exactly the entries it
    counted, and what it fills is acceptable and sends every coefficient exactly. */
module SimpleProgression {
  import opened ScanScript
  import opened ArithScanDecoder

  // What the fill routines write --------------------------------------------------------------

  /** A scan of component ci alone. */
  ghost predicate Single(x: Scan, ci: int, ss: int, se: int, ah: int, al: int) {
    && |x.component_index| == MAX_COMPS_IN_SCAN && x.comps_in_scan == 1 && x.component_index[0] == ci
    && x.Ss == ss && x.Se == se && x.Ah == ah && x.Al == al
  }

  /** A DC scan of components 0 to n - 1 together. */
  ghost predicate Interleaved(x: Scan, n: nat, ah: int, al: int) {
    && n <= MAX_COMPS_IN_SCAN && |x.component_index| == MAX_COMPS_IN_SCAN && x.comps_in_scan == n
    && (forall i :: 0 <= i < n ==> x.component_index[i] == i)
    && x.Ss == 0 && x.Se == 0 && x.Ah == ah && x.Al == al
  }

  ghost predicate Singles(block: seq<Scan>, ss: int, se: int, ah: int, al: int) {
    forall i :: 0 <= i < |block| ==> Single(block[i], i, ss, se, ah, al)
  }

  ghost predicate DcBlock(block: seq<Scan>, n: nat, ah: int, al: int) {
    if n <= MAX_COMPS_IN_SCAN then |block| == 1 && Interleaved(block[0], n, ah, al)
    else |block| == n && Singles(block, 0, 0, ah, al)
  }

  // One fill at a time --------------------------------------------------------------------------

  /** Appending an acceptable scan of one component. */
  lemma AddSingle(script: seq<Scan>, x: Scan, n: nat, ci: int, ss: int, se: int, ah: int, al: int)
    requires Entries(script) && StepsOk(script, n) && Single(x, ci, ss, se, ah, al) && 0 <= ci < n
    requires 0 <= ss <= se < 64 && (ss == 0 ==> se == 0) && 0 <= ah <= MAX_AH_AL && 0 <= al <= MAX_AH_AL
    requires ss != 0 ==> LastBit(script, ci, 0) >= 0
    requires forall j :: ss <= j <= se ==> Follows(LastBit(script, ci, j), ah, al)
    ensures Entries(script + [x]) && StepsOk(script + [x], n)
    ensures forall c, j ::
      LastBit(script + [x], c, j) == if c == ci && ss <= j <= se then al else LastBit(script, c, j)
  {
    hide Follows, StepsOk, StepOk;
    StepIs(script, x, n);
    Longer(script + [x], |script|, n);
    assert (script + [x])[..|script|] == script && (script + [x])[..|script| + 1] == script + [x];
    assert Among(x, 1, ci);
  }

  /** Appending the DC scan of all components. */
  lemma AddInterleaved(script: seq<Scan>, x: Scan, n: nat, ah: int, al: int)
    requires Entries(script) && StepsOk(script, n) && Interleaved(x, n, ah, al) && n > 0
    requires 0 <= ah <= MAX_AH_AL && 0 <= al <= MAX_AH_AL
    requires forall c :: 0 <= c < n ==> Follows(LastBit(script, c, 0), ah, al)
    ensures Entries(script + [x]) && StepsOk(script + [x], n)
    ensures forall c, j ::
      LastBit(script + [x], c, j) == if 0 <= c < n && j == 0 then al else LastBit(script, c, j)
  {
    hide Follows, StepsOk, StepOk;
    StepIs(script, x, n);
    Longer(script + [x], |script|, n);
    assert (script + [x])[..|script|] == script && (script + [x])[..|script| + 1] == script + [x];
    forall c | 0 <= c < n ensures Among(x, n, c) {
      assert x.component_index[c] == c;
    }
  }

  /** Appending one scan per component. */
  lemma {:induction false} AddSingles(script: seq<Scan>, block: seq<Scan>, n: nat, ss: int, se: int, ah: int, al: int)
    requires Entries(script) && StepsOk(script, n) && Singles(block, ss, se, ah, al) && |block| <= n
    requires 0 <= ss <= se < 64 && (ss == 0 ==> se == 0) && 0 <= ah <= MAX_AH_AL && 0 <= al <= MAX_AH_AL
    requires ss != 0 ==> forall c :: 0 <= c < |block| ==> LastBit(script, c, 0) >= 0
    requires forall c, j :: 0 <= c < |block| && ss <= j <= se ==> Follows(LastBit(script, c, j), ah, al)
    ensures Entries(script + block) && StepsOk(script + block, n)
    ensures forall c, j ::
      LastBit(script + block, c, j) == if 0 <= c < |block| && ss <= j <= se then al else LastBit(script, c, j)
  {
    hide Follows, StepsOk, StepOk, LastBit;
    var m := |block| - 1;
    if m < 0 {
      assert script + block == script;
    } else {
      AddSingles(script, block[..m], n, ss, se, ah, al);
      AddSingle(script + block[..m], block[m], n, m, ss, se, ah, al);
      assert script + block == script + block[..m] + [block[m]];
    }
  }

  lemma AddDc(script: seq<Scan>, block: seq<Scan>, n: nat, ah: int, al: int)
    requires Entries(script) && StepsOk(script, n) && DcBlock(block, n, ah, al) && n > 0
    requires 0 <= ah <= MAX_AH_AL && 0 <= al <= MAX_AH_AL
    requires forall c :: 0 <= c < n ==> Follows(LastBit(script, c, 0), ah, al)
    ensures Entries(script + block) && StepsOk(script + block, n)
    ensures forall c, j ::
      LastBit(script + block, c, j) == if 0 <= c < n && j == 0 then al else LastBit(script, c, j)
  {
    hide Follows, StepsOk, StepOk, LastBit;
    if n <= MAX_COMPS_IN_SCAN {
      assert block == [block[0]];
      AddInterleaved(script, block[0], n, ah, al);
    } else {
      AddSingles(script, block, n, 0, 0, ah, al);
    }
  }

  // The fill routines ---------------------------------------------------------------------------------

  /** Everything below p and from q on is as it was. */
  twostate predicate Kept(a: array<Scan>, p: int, q: int)
    requires 0 <= p <= q <= a.Length
    reads a
  {
    forall i :: 0 <= i < a.Length && !(p <= i < q) ==> a[i] == old(a[i])
  }

  ghost predicate Rooms(a: array<Scan>)
    reads a
  {
    forall i :: 0 <= i < a.Length ==> |a[i].component_index| == MAX_COMPS_IN_SCAN
  }

  /** One scan of one component. */
  method FillAScan(a: array<Scan>, scanptr: nat, ci: int, ss: int, se: int, ah: int, al: int) returns (next: nat)
    requires Rooms(a) && scanptr < a.Length
    modifies a
    ensures Rooms(a) && next == scanptr + 1 && Kept(a, scanptr, next)
    ensures Single(a[scanptr], ci, ss, se, ah, al)
  {
    a[scanptr] := a[scanptr].(comps_in_scan := 1, component_index := a[scanptr].component_index[0 := ci],
                              Ss := ss, Se := se, Ah := ah, Al := al);
    next := scanptr + 1;
  }

  /** One scan of each component in turn. */
  method FillScans(a: array<Scan>, scanptr: nat, ncomps: nat, ss: int, se: int, ah: int, al: int) returns (next: nat)
    requires Rooms(a) && scanptr + ncomps <= a.Length
    modifies a
    ensures Rooms(a) && next == scanptr + ncomps && Kept(a, scanptr, next)
    ensures Singles(a[scanptr..next], ss, se, ah, al)
  {
    next := scanptr;
    var ci := 0;
    while ci < ncomps
      invariant 0 <= ci <= ncomps && next == scanptr + ci && Rooms(a) && Kept(a, scanptr, next)
      invariant Singles(a[scanptr..next], ss, se, ah, al)
    {
      ghost var before := a[scanptr..next];
      next := FillAScan(a, next, ci, ss, se, ah, al);
      assert a[scanptr..next] == before + [a[next - 1]];
      ci := ci + 1;
    }
  }

  /** The DC scan: interleaved when at most four components take part, else one scan each. */
  method FillDcScans(a: array<Scan>, scanptr: nat, ncomps: nat, ah: int, al: int) returns (next: nat)
    requires Rooms(a) && scanptr + (if ncomps <= MAX_COMPS_IN_SCAN then 1 else ncomps) <= a.Length
    modifies a
    ensures Rooms(a) && next == scanptr + (if ncomps <= MAX_COMPS_IN_SCAN then 1 else ncomps) && Kept(a, scanptr, next)
    ensures DcBlock(a[scanptr..next], ncomps, ah, al)
  {
    if ncomps <= MAX_COMPS_IN_SCAN {
      a[scanptr] := a[scanptr].(comps_in_scan := ncomps);
      var ci := 0;
      while ci < ncomps
        invariant 0 <= ci <= ncomps && Rooms(a) && Kept(a, scanptr, scanptr + 1)
        invariant a[scanptr].comps_in_scan == ncomps
        invariant forall i :: 0 <= i < ci ==> a[scanptr].component_index[i] == i
      {
        a[scanptr] := a[scanptr].(component_index := a[scanptr].component_index[ci := ci]);
        ci := ci + 1;
      }
      a[scanptr] := a[scanptr].(Ss := 0, Se := 0, Ah := ah, Al := al);
      next := scanptr + 1;
    } else {
      next := FillScans(a, scanptr, ncomps, 0, 0, ah, al);
    }
  }

  // The two scripts ------------------------------------------------------------------------------------

  /** The script for three components in a YCC color space: luma early, and its bottom bit last. */
  ghost predicate YccScript(s: seq<Scan>) {
    && |s| == 10
    && Interleaved(s[0], 3, 0, 1)
    && Single(s[1], 0, 1, 5, 0, 2)
    && Single(s[2], 2, 1, 63, 0, 1) && Single(s[3], 1, 1, 63, 0, 1)
    && Single(s[4], 0, 6, 63, 0, 2)
    && Single(s[5], 0, 1, 63, 2, 1)
    && Interleaved(s[6], 3, 1, 0)
    && Single(s[7], 2, 1, 63, 1, 0) && Single(s[8], 1, 1, 63, 1, 0)
    && Single(s[9], 0, 1, 63, 1, 0)
  }

  /** The script for any other n components, d being the scans of a DC pass: two DC passes, and four AC passes. */
  ghost predicate AllPurposeScript(s: seq<Scan>, n: nat) {
    var d := if n <= MAX_COMPS_IN_SCAN then 1 else n;
    && |s| == 2 * d + 4 * n
    && DcBlock(s[..d], n, 0, 1)
    && Singles(s[d..d + n], 1, 5, 0, 2)
    && Singles(s[d + n..d + 2 * n], 6, 63, 0, 2)
    && Singles(s[d + 2 * n..d + 3 * n], 1, 63, 2, 1)
    && DcBlock(s[d + 3 * n..2 * d + 3 * n], n, 1, 0)
    && Singles(s[2 * d + 3 * n..], 1, 63, 1, 0)
  }

  // The whole script -----------------------------------------------------------------------------------

  /** The bands of the recommended script: coefficients 1 to 5, 6 to 63, or both. */
  ghost predicate Band(ss: int, se: int) {
    (ss == 1 && (se == 5 || se == 63)) || (ss == 6 && se == 63)
  }

  ghost predicate NextFollows(ss: int, se: int, low: int, high: int, ah: int, al: int) {
    && 0 <= ah <= MAX_AH_AL && 0 <= al <= MAX_AH_AL
    && (ss == 1 ==> Follows(low, ah, al)) && (se == 63 ==> Follows(high, ah, al))
  }

  ghost predicate AllSentTo(script: seq<Scan>, n: nat, dc: int, low: int, high: int) {
    && Entries(script) && StepsOk(script, n)
    && forall c, j :: 0 <= c < n && 0 <= j < 64 ==>
         LastBit(script, c, j) == if j == 0 then dc else if j <= 5 then low else high
  }

  lemma StepDc(script: seq<Scan>, block: seq<Scan>, n: nat, ah: int, al: int, dc: int, low: int, high: int)
    requires AllSentTo(script, n, dc, low, high) && DcBlock(block, n, ah, al) && n > 0
    requires 0 <= ah <= MAX_AH_AL && 0 <= al <= MAX_AH_AL && Follows(dc, ah, al)
    ensures AllSentTo(script + block, n, al, low, high)
  {
    hide Follows, StepsOk, LastBit, DcBlock;
    AddDc(script, block, n, ah, al);
  }

  lemma StepAc(script: seq<Scan>, block: seq<Scan>, n: nat, ss: int, se: int, ah: int, al: int, dc: int, low: int,
               high: int)
    requires AllSentTo(script, n, dc, low, high) && |block| == n && Singles(block, ss, se, ah, al)
    requires Band(ss, se) && NextFollows(ss, se, low, high, ah, al) && dc >= 0
    ensures AllSentTo(script + block, n, dc, if ss == 1 then al else low, if se == 63 then al else high)
  {
    hide Follows, StepsOk, LastBit;
    AddSingles(script, block, n, ss, se, ah, al);
  }

  lemma Extended(a: seq<Scan>, b: seq<Scan>, p: nat, q: nat)
    requires p <= q <= |a| && |b| == |a| && forall i :: 0 <= i < p ==> a[i] == b[i]
    ensures b[..q] == a[..p] + b[p..q]
  {
  }

  /** The all-purpose script. */
  method FillAllPurpose(a: array<Scan>, ncomps: nat) returns (scanptr: nat)
    requires Rooms(a) && a.Length >= if ncomps > MAX_COMPS_IN_SCAN then 6 * ncomps else 2 + 4 * ncomps
    modifies a
    ensures scanptr == if ncomps > MAX_COMPS_IN_SCAN then 6 * ncomps else 2 + 4 * ncomps
    ensures Rooms(a) && Kept(a, 0, scanptr)
    ensures ncomps > 0 ==> AllSentTo(a[..scanptr], ncomps, 0, 0, 0)
    ensures AllPurposeScript(a[..scanptr], ncomps)
  {
    hide AllSentTo, Singles, DcBlock;
    var next := FillDcScans(a, 0, ncomps, 0, 1);
    ghost var dc1 := a[0..next];
    if ncomps > 0 {
      NothingSent(ncomps);
      StepDc([], a[0..next], ncomps, 0, 1, -1, -1, -1);
      assert [] + a[0..next] == a[..next];
    }
    scanptr := FillAc(a, next, ncomps, 1, 5, 0, 2, 1, -1, -1);
    ghost var ac1 := a[next..scanptr];
    next := scanptr;
    scanptr := FillAc(a, next, ncomps, 6, 63, 0, 2, 1, 2, -1);
    ghost var ac2 := a[next..scanptr];
    next := scanptr;
    scanptr := FillAc(a, next, ncomps, 1, 63, 2, 1, 1, 2, 2);
    ghost var ac3 := a[next..scanptr];
    ghost var s := a[..scanptr];
    ghost var whole := a[..];
    next := FillDcScans(a, scanptr, ncomps, 1, 0);
    Extended(whole, a[..], scanptr, next);
    ghost var dc2 := a[scanptr..next];
    if ncomps > 0 {
      StepDc(s, a[scanptr..next], ncomps, 1, 0, 1, 1, 1);
    }
    scanptr := FillAc(a, next, ncomps, 1, 63, 1, 0, 0, 1, 1);
    Assembled(ncomps, dc1, ac1, ac2, ac3, dc2, a[next..scanptr]);
  }

  lemma Assembled(n: nat, dc1: seq<Scan>, ac1: seq<Scan>, ac2: seq<Scan>, ac3: seq<Scan>, dc2: seq<Scan>,
                  ac4: seq<Scan>)
    requires DcBlock(dc1, n, 0, 1) && DcBlock(dc2, n, 1, 0) && |ac1| == |ac2| == |ac3| == |ac4| == n
    requires Singles(ac1, 1, 5, 0, 2) && Singles(ac2, 6, 63, 0, 2) && Singles(ac3, 1, 63, 2, 1)
    requires Singles(ac4, 1, 63, 1, 0)
    ensures AllPurposeScript(dc1 + ac1 + ac2 + ac3 + dc2 + ac4, n)
  {
    hide Singles;
    var s, d := dc1 + ac1 + ac2 + ac3 + dc2 + ac4, |dc1|;
    assert s[..d] == dc1 && s[d..d + n] == ac1 && s[d + n..d + 2 * n] == ac2 && s[d + 2 * n..d + 3 * n] == ac3;
    assert s[d + 3 * n..2 * d + 3 * n] == dc2 && s[2 * d + 3 * n..] == ac4;
  }

  /** Either script starts with a DC scan. */
  lemma FirstIsDc(s: seq<Scan>, n: nat)
    requires YccScript(s) || (n > 0 && AllPurposeScript(s, n))
    ensures |s| >= 2 && s[0].Ss == s[0].Se == 0
  {
    if !YccScript(s) {
      var d := if n <= MAX_COMPS_IN_SCAN then 1 else n;
      assert s[0] == s[..d][0];
    }
  }

  lemma NothingSent(n: nat)
    ensures AllSentTo([], n, -1, -1, -1)
  {
  }

  /** One AC pass over all the components. */
  method FillAc(a: array<Scan>, scanptr: nat, ncomps: nat, ss: int, se: int, ah: int, al: int, ghost dc: int,
                ghost low: int, ghost high: int)
    returns (next: nat)
    requires Rooms(a) && scanptr + ncomps <= a.Length
    requires Band(ss, se) && NextFollows(ss, se, low, high, ah, al) && dc >= 0
    requires ncomps > 0 ==> AllSentTo(a[..scanptr], ncomps, dc, low, high)
    modifies a
    ensures Rooms(a) && next == scanptr + ncomps && Kept(a, scanptr, next)
    ensures ncomps > 0 ==>
      AllSentTo(a[..next], ncomps, dc, if ss == 1 then al else low, if se == 63 then al else high)
    ensures Singles(a[scanptr..next], ss, se, ah, al) && a[..next] == old(a[..scanptr]) + a[scanptr..next]
  {
    hide AllSentTo, Singles;
    ghost var whole := a[..];
    next := FillScans(a, scanptr, ncomps, ss, se, ah, al);
    Extended(whole, a[..], scanptr, next);
    if ncomps > 0 {
      StepAc(whole[..scanptr], a[scanptr..next], ncomps, ss, se, ah, al, dc, low, high);
    }
  }

  // The script for YCC images ---------------------------------------------------------------------------

  /** What has been sent of three components: their DC, the two bands of luma, and the chroma AC. */
  ghost predicate YccSentTo(script: seq<Scan>, dc: int, low: int, high: int, cb: int, cr: int) {
    && Entries(script) && StepsOk(script, 3)
    && forall c, j :: 0 <= c < 3 && 0 <= j < 64 ==>
         LastBit(script, c, j) ==
           if j == 0 then dc else if c == 1 then cb else if c == 2 then cr else if j <= 5 then low else high
  }

  ghost predicate YccFollows(ci: int, ss: int, se: int, low: int, high: int, cb: int, cr: int, ah: int, al: int) {
    if ci == 0 then Band(ss, se) && NextFollows(ss, se, low, high, ah, al)
    else
      var chroma := if ci == 1 then cb else cr;
      (ci == 1 || ci == 2) && ss == 1 && se == 63 && NextFollows(ss, se, chroma, chroma, ah, al)
  }

  lemma StepYccDc(script: seq<Scan>, block: seq<Scan>, ah: int, al: int, dc: int, low: int, high: int, cb: int, cr: int)
    requires YccSentTo(script, dc, low, high, cb, cr) && DcBlock(block, 3, ah, al)
    requires 0 <= ah <= MAX_AH_AL && 0 <= al <= MAX_AH_AL && Follows(dc, ah, al)
    ensures YccSentTo(script + block, al, low, high, cb, cr)
  {
    hide Follows, StepsOk, LastBit, DcBlock;
    AddDc(script, block, 3, ah, al);
  }

  lemma StepYcc(script: seq<Scan>, x: Scan, ci: int, ss: int, se: int, ah: int, al: int, dc: int, low: int, high: int,
                cb: int, cr: int)
    requires YccSentTo(script, dc, low, high, cb, cr) && Single(x, ci, ss, se, ah, al) && dc >= 0
    requires YccFollows(ci, ss, se, low, high, cb, cr, ah, al)
    ensures YccSentTo(script + [x], dc,
                      if ci == 0 && ss == 1 then al else low, if ci == 0 && se == 63 then al else high,
                      if ci == 1 then al else cb, if ci == 2 then al else cr)
  {
    hide Follows, StepsOk, LastBit;
    AddSingle(script, x, 3, ci, ss, se, ah, al);
  }

  /** One scan of one component of a YCC image. */
  method FillYccScan(a: array<Scan>, scanptr: nat, ci: int, ss: int, se: int, ah: int, al: int, ghost dc: int,
                     ghost low: int, ghost high: int, ghost cb: int, ghost cr: int)
    returns (next: nat)
    requires Rooms(a) && scanptr < a.Length && dc >= 0
    requires YccSentTo(a[..scanptr], dc, low, high, cb, cr) && YccFollows(ci, ss, se, low, high, cb, cr, ah, al)
    modifies a
    ensures Rooms(a) && next == scanptr + 1 && Kept(a, scanptr, next)
    ensures YccSentTo(a[..next], dc, if ci == 0 && ss == 1 then al else low, if ci == 0 && se == 63 then al else high,
                      if ci == 1 then al else cb, if ci == 2 then al else cr)
    ensures Single(a[scanptr], ci, ss, se, ah, al)
  {
    hide YccSentTo;
    ghost var whole := a[..];
    next := FillAScan(a, scanptr, ci, ss, se, ah, al);
    Extended(whole, a[..], scanptr, next);
    assert a[scanptr..next] == [a[scanptr]];
    StepYcc(whole[..scanptr], a[scanptr], ci, ss, se, ah, al, dc, low, high, cb, cr);
  }

  method FillYccDc(a: array<Scan>, scanptr: nat, ah: int, al: int, ghost dc: int, ghost low: int, ghost high: int,
                   ghost cb: int, ghost cr: int)
    returns (next: nat)
    requires Rooms(a) && scanptr < a.Length && 0 <= ah <= MAX_AH_AL && 0 <= al <= MAX_AH_AL && Follows(dc, ah, al)
    requires YccSentTo(a[..scanptr], dc, low, high, cb, cr)
    modifies a
    ensures Rooms(a) && next == scanptr + 1 && Kept(a, scanptr, next)
    ensures YccSentTo(a[..next], al, low, high, cb, cr)
    ensures Interleaved(a[scanptr], 3, ah, al)
  {
    hide YccSentTo;
    ghost var whole := a[..];
    next := FillDcScans(a, scanptr, 3, ah, al);
    Extended(whole, a[..], scanptr, next);
    assert a[scanptr..next] == [a[scanptr]];
    StepYccDc(whole[..scanptr], a[scanptr..next], ah, al, dc, low, high, cb, cr);
  }

  method FillYcc(a: array<Scan>) returns (scanptr: nat)
    requires Rooms(a) && a.Length >= 10
    modifies a
    ensures scanptr == 10 && Rooms(a) && Kept(a, 0, scanptr)
    ensures YccSentTo(a[..scanptr], 0, 0, 0, 0, 0) && YccScript(a[..scanptr])
  {
    assert YccSentTo(a[..0], -1, -1, -1, -1, -1);
    hide YccSentTo, Single, Interleaved;
    scanptr := FillYccDc(a, 0, 0, 1, -1, -1, -1, -1, -1);
    scanptr := FillYccScan(a, scanptr, 0, 1, 5, 0, 2, 1, -1, -1, -1, -1);
    scanptr := FillYccScan(a, scanptr, 2, 1, 63, 0, 1, 1, 2, -1, -1, -1);
    scanptr := FillYccScan(a, scanptr, 1, 1, 63, 0, 1, 1, 2, -1, -1, 1);
    scanptr := FillYccScan(a, scanptr, 0, 6, 63, 0, 2, 1, 2, -1, 1, 1);
    scanptr := FillYccScan(a, scanptr, 0, 1, 63, 2, 1, 1, 2, 2, 1, 1);
    scanptr := FillYccDc(a, scanptr, 1, 0, 1, 1, 1, 1, 1);
    scanptr := FillYccScan(a, scanptr, 2, 1, 63, 1, 0, 0, 1, 1, 1, 1);
    scanptr := FillYccScan(a, scanptr, 1, 1, 63, 1, 0, 0, 1, 1, 1, 0);
    scanptr := FillYccScan(a, scanptr, 0, 1, 63, 1, 0, 0, 1, 1, 0, 0);
  }

  // jpeg_simple_progression ----------------------------------------------------------------------------------

  /** Every coefficient of the first n components comes back exactly. */
  ghost predicate Exact(script: seq<Scan>, n: nat)
    requires Entries(script)
  {
    forall c: int, j: nat, v: int :: 0 <= c < n && j < 64 ==> Composed(script, c, j, v) == v
  }

  lemma BottomBitsSent(script: seq<Scan>, n: nat)
    requires Entries(script) && StepsOk(script, n) && |script| > 0 && script[0].Se == 0
    requires forall c, j :: 0 <= c < n && 0 <= j < 64 ==> LastBit(script, c, j) == 0
    ensures Accepted(script, n) && ProgressiveOk(script, n) && Exact(script, n)
  {
    hide StepsOk, LastBit, Composed;
    forall c: int, j: nat, v: int | 0 <= c < n && j < 64 ensures Composed(script, c, j, v) == v {
      ScriptComposes(script, n, c, j, v);
      NothingShifted(v);
    }
  }

  const CSTATE_START := 100

  /** The compressor's script. */
  class Compress {
    var global_state: int
    var script_space: array?<Scan>
    var scan_info: array?<Scan>
    var num_scans: nat

    constructor (state: int)
      ensures script_space == null && scan_info == null && num_scans == 0 && global_state == state
    {
      global_state, script_space, scan_info, num_scans := state, null, null, 0;
    }

    ghost function Repr(): set<object>
      reads this
    {
      if script_space == null then {this} else {this, script_space}
    }

    ghost predicate Valid()
      reads Repr()
    {
      script_space != null ==> Rooms(script_space)
    }

    /** The script in use. */
    ghost function Script(): (s: seq<Scan>)
      requires Valid() && scan_info != null && scan_info == script_space && num_scans <= scan_info.Length
      reads Repr()
      ensures Entries(s) && |s| == num_scans
    {
      scan_info[..num_scans]
    }

    /** Fills exactly the entries counted, the last one ending where the space counted ends. The
        script is accepted, and exact, if there is any component at all. */
    method JpegSimpleProgression(num_components: nat, ycc: bool) returns (ok: bool, scanptr: nat)
      requires Valid()
      modifies Repr()
      ensures Valid() && global_state == old(global_state)
      ensures ok <==> global_state == 100
      ensures !ok ==> scan_info == old(scan_info) && script_space == old(script_space) && num_scans == old(num_scans)
      ensures ok ==>
          scan_info != null && scan_info == script_space && num_scans <= scan_info.Length && scanptr == num_scans
      ensures ok ==> script_space == old(script_space) || (fresh(script_space) && script_space.Length >= 10)
      ensures ok ==>
        (script_space == old(script_space) <==> old(script_space) != null && old(script_space.Length) >= num_scans)
      ensures ok && old(script_space) != null && script_space == old(script_space) ==>
        forall i :: num_scans <= i < script_space.Length ==> script_space[i] == old(script_space[i])
      ensures ok ==> (Accepted(Script(), num_components) <==> num_components > 0)
      ensures ok ==> Exact(Script(), num_components)
      ensures ok ==>
        if num_components == 3 && ycc then YccScript(Script()) else AllPurposeScript(Script(), num_components)
    {
      hide YccScript, AllPurposeScript, YccSentTo, AllSentTo, Exact, Accepted;
      scanptr := 0;
      if global_state != CSTATE_START {
        return false, scanptr;
      }
      var nscans;
      if num_components == 3 && ycc {
        nscans := 10;
      } else if num_components > MAX_COMPS_IN_SCAN {
        nscans := 6 * num_components;
      } else {
        nscans := 2 + 4 * num_components;
      }
      if script_space == null || script_space.Length < nscans {
        script_space := new Scan[if nscans < 10 then 10 else nscans](_ => Scan(0, [0, 0, 0, 0], 0, 0, 0, 0));
      }
      scan_info, num_scans := script_space, nscans;
      if num_components == 3 && ycc {
        scanptr := FillYcc(script_space);
      } else {
        scanptr := FillAllPurpose(script_space, num_components);
      }
      ok := true;
      Done(script_space[..], scanptr, num_components, ycc);
    }
  }

  lemma Done(a: seq<Scan>, n: nat, num_components: nat, ycc: bool)
    requires 2 <= n <= |a| && forall i :: 0 <= i < |a| ==> |a[i].component_index| == MAX_COMPS_IN_SCAN
    requires ycc && num_components == 3 ==> YccSentTo(a[..n], 0, 0, 0, 0, 0) && YccScript(a[..n])
    requires !(ycc && num_components == 3) ==>
      && (num_components > 0 ==> AllSentTo(a[..n], num_components, 0, 0, 0))
      && AllPurposeScript(a[..n], num_components)
    ensures Accepted(a[..n], num_components) <==> num_components > 0
    ensures Exact(a[..n], num_components)
  {
    hide StepsOk, LastBit, Exact, SequentialOk, YccScript, AllPurposeScript;
    var script := a[..n];
    if num_components > 0 {
      FirstIsDc(script, num_components);
      BottomBitsSent(script, num_components);
    } else {
      NoComponents(script);
    }
  }

  lemma NoComponents(script: seq<Scan>)
    requires Entries(script) && |script| > 0
    ensures !Accepted(script, 0) && Exact(script, 0)
  {
    var first := script[0].component_index[0];
    assert !(0 <= first < 0);
    assert !ComponentsOk(script[0], 0);
    assert !StepOk(script[..0], script[0], 0);
  }
}
