/** Progressive scan scripts: what validate_script accepts, what an accepted script adds up to,
    and the recommended script. */
module ScanScript {
  import opened Numbers
  import opened Values
  import opened BandPlan
  import opened BandDecoder
  import opened ArithScanDecoder
  import opened ArithCoefDecoder

  const MAX_COMPS_IN_SCAN := 4
  const MAX_COMPONENTS := 10
  const MAX_AH_AL := 10

  /** jpeg_scan_info. */
  datatype Scan = Scan(comps_in_scan: int, component_index: seq<int>, Ss: int, Se: int, Ah: int, Al: int)

  /** component_index[] has room for four components, whatever comps_in_scan says. */
  ghost predicate Entries(script: seq<Scan>) {
    forall n :: 0 <= n < |script| ==> |script[n].component_index| == MAX_COMPS_IN_SCAN
  }

  // Acceptance, scan by scan ------------------------------------------------------------------

  ghost predicate HasComponent(x: Scan, c: int)
    requires |x.component_index| == MAX_COMPS_IN_SCAN
  {
    exists i :: 0 <= i < x.comps_in_scan && i < MAX_COMPS_IN_SCAN && x.component_index[i] == c
  }

  ghost predicate Covers(x: Scan, c: int, j: int)
    requires |x.component_index| == MAX_COMPS_IN_SCAN
  {
    HasComponent(x, c) && x.Ss <= j <= x.Se
  }

  /** Al of the last scan of coefficient j of component c, or -1. */
  ghost function LastBit(script: seq<Scan>, c: int, j: int): int
    requires Entries(script)
  {
    var n := |script| - 1;
    if n < 0 then -1 else if Covers(script[n], c, j) then script[n].Al else LastBit(script[..n], c, j)
  }

  /** Between one and four components, in ascending order. */
  ghost predicate ComponentsOk(x: Scan, num_components: nat)
    requires |x.component_index| == MAX_COMPS_IN_SCAN
  {
    && 0 < x.comps_in_scan <= MAX_COMPS_IN_SCAN
    && forall i :: 0 <= i < x.comps_in_scan ==>
         0 <= x.component_index[i] < num_components && (i > 0 ==> x.component_index[i - 1] < x.component_index[i])
  }

  ghost predicate RangesOk(x: Scan) {
    && 0 <= x.Ss <= x.Se < 64 && 0 <= x.Ah <= MAX_AH_AL && 0 <= x.Al <= MAX_AH_AL
    && if x.Ss == 0 then x.Se == 0 else x.comps_in_scan == 1
  }

  /** A first scan of a coefficient has Ah = 0; a later one refines it by exactly one bit. */
  ghost predicate Follows(last: int, ah: int, al: int) {
    if last < 0 then ah == 0 else ah == last && al == ah - 1
  }

  /** An acceptable next scan of a progressive script. */
  ghost predicate StepOk(script: seq<Scan>, x: Scan, num_components: nat)
    requires Entries(script) && |x.component_index| == MAX_COMPS_IN_SCAN
  {
    && ComponentsOk(x, num_components) && RangesOk(x)
    && forall c :: HasComponent(x, c) ==>
         && (x.Ss != 0 ==> LastBit(script, c, 0) >= 0)
         && forall j :: x.Ss <= j <= x.Se ==> Follows(LastBit(script, c, j), x.Ah, x.Al)
  }

  ghost predicate StepsOk(script: seq<Scan>, num_components: nat)
    requires Entries(script)
  {
    forall n :: 0 <= n < |script| ==> StepOk(script[..n], script[n], num_components)
  }

  /** Accepted progressive scripts: every step follows, and each component's DC gets sent. */
  ghost predicate ProgressiveOk(script: seq<Scan>, num_components: nat)
    requires Entries(script)
  {
    StepsOk(script, num_components) && forall c :: 0 <= c < num_components ==> LastBit(script, c, 0) >= 0
  }

  ghost predicate SentIn(script: seq<Scan>, c: int)
    requires Entries(script)
  {
    exists n :: 0 <= n < |script| && HasComponent(script[n], c)
  }

  /** Accepted sequential scripts: every component in exactly one full scan. */
  ghost predicate SequentialOk(script: seq<Scan>, num_components: nat)
    requires Entries(script)
  {
    && (forall n :: 0 <= n < |script| ==>
          && ComponentsOk(script[n], num_components)
          && script[n].Ss == 0 && script[n].Se == 63 && script[n].Ah == 0 && script[n].Al == 0)
    && (forall m, n, c :: 0 <= m < n < |script| ==> !(HasComponent(script[m], c) && HasComponent(script[n], c)))
    && (forall c :: 0 <= c < num_components ==> SentIn(script, c))
  }

  ghost predicate Accepted(script: seq<Scan>, num_components: nat)
    requires Entries(script)
  {
    |script| > 0 &&
    if script[0].Ss != 0 || script[0].Se != 63 then ProgressiveOk(script, num_components)
    else SequentialOk(script, num_components)
  }

  // What an accepted script adds up to ----------------------------------------------------------

  /** A refinement scan's effect on one coefficient v, known as x: the next bit of the DC value,
      or of the magnitude of an AC coefficient. */
  function RefineCoef(j: nat, v: int, x: int, al: nat): int {
    if j == 0 then if Floor(v, al) % 2 != 0 then SetBit(x, Pow2(al)) else x
    else if x != 0 then if Shifted(v, al) % 2 == 0 then x else if x < 0 then x - Pow2(al) else x + Pow2(al)
    else if Shifted(v, al) == 1 then (if v < 0 then 0 - Pow2(al) else Pow2(al)) as int
    else 0
  }

  /** The coefficient after one more scan. */
  function Scanned(x: Scan, j: nat, v: int, known: int): int {
    if x.Al < 0 then known
    else if x.Ah == 0 then Known(j, v, x.Al)
    else RefineCoef(j, v, known, x.Al)
  }

  /** What a decoder knows of coefficient j of component c after the script. */
  ghost function Composed(script: seq<Scan>, c: int, j: nat, v: int): int
    requires Entries(script)
  {
    var n := |script| - 1;
    if n < 0 then 0
    else
      var known := Composed(script[..n], c, j, v);
      if Covers(script[n], c, j) then Scanned(script[n], j, v, known) else known
  }

  /** Refining one bit at a time is the same as sending one more bit at once. */
  lemma RefineIsKnown(j: nat, v: int, al: nat)
    ensures RefineCoef(j, v, Known(j, v, al + 1), al) == Known(j, v, al)
  {
    hide Pow2, Shifted, Floor, Trunc;
    if j == 0 {
      RefinedDc(v, al);
    } else {
      SharpValue(v, al);
      OlderZero(v, al);
      BetweenZero(Trunc(v, al + 1), v, al);
    }
  }

  lemma PrefixOk(script: seq<Scan>, num_components: nat)
    requires Entries(script) && |script| > 0 && StepsOk(script, num_components)
    ensures var n := |script| - 1;
      StepsOk(script[..n], num_components) && StepOk(script[..n], script[n], num_components)
  {
    hide StepOk;
    var n := |script| - 1;
    forall i | 0 <= i < n ensures StepOk(script[..n][..i], script[..n][i], num_components) {
      assert script[..n][..i] == script[..i];
    }
  }

  /** The scans of an accepted script add up: every coefficient ends known down to the last bit
      sent for it, as if it had been sent in one scan. */
  lemma {:induction false} ScriptComposes(script: seq<Scan>, num_components: nat, c: int, j: nat, v: int)
    requires Entries(script) && StepsOk(script, num_components) && j < 64
    ensures var last := LastBit(script, c, j);
      Composed(script, c, j, v) == if last < 0 then 0 else Known(j, v, last)
  {
    hide Known, RefineCoef, Follows;
    var n := |script| - 1;
    if n >= 0 {
      PrefixOk(script, num_components);
      ScriptComposes(script[..n], num_components, c, j, v);
      var x, last := script[n], LastBit(script[..n], c, j);
      if Covers(x, c, j) {
        assert Follows(last, x.Ah, x.Al);
        FollowsIs(last, x.Ah, x.Al);
        if last >= 0 {
          RefineIsKnown(j, v, x.Al);
        }
      }
    }
  }

  lemma FollowsIs(last: int, ah: int, al: int)
    requires Follows(last, ah, al) && al >= 0
    ensures if last < 0 then ah == 0 else ah == last == al + 1
  {
  }

  // validate_script ----------------------------------------------------------------------------------

  /** Component indexes of one scan. */
  method CheckComponents(x: Scan, num_components: nat) returns (ok: bool)
    requires |x.component_index| == MAX_COMPS_IN_SCAN
    ensures ok <==> ComponentsOk(x, num_components)
  {
    if x.comps_in_scan <= 0 || x.comps_in_scan > MAX_COMPS_IN_SCAN {
      return false;
    }
    var ci := 0;
    while ci < x.comps_in_scan
      invariant 0 <= ci <= x.comps_in_scan
      invariant forall i :: 0 <= i < ci ==>
        0 <= x.component_index[i] < num_components && (i > 0 ==> x.component_index[i - 1] < x.component_index[i])
    {
      var thisi := x.component_index[ci];
      if thisi < 0 || thisi >= num_components {
        return false;
      }
      if ci > 0 && thisi <= x.component_index[ci - 1] {
        return false;
      }
      ci := ci + 1;
    }
    ok := true;
  }

  /** The progression checks of one scan for its component number ci. */
  method CheckComponent(x: Scan, ci: nat, last_bitpos: array2<int>, ghost script: seq<Scan>, num_components: nat)
    returns (ok: bool)
    requires Entries(script) && |x.component_index| == MAX_COMPS_IN_SCAN && ComponentsOk(x, num_components)
    requires RangesOk(x)
    requires ci < x.comps_in_scan && num_components <= last_bitpos.Length0 && last_bitpos.Length1 == 64
    requires forall j :: 0 <= j < 64 ==>
        last_bitpos[x.component_index[ci], j] == LastBit(script, x.component_index[ci], j)
    modifies last_bitpos
    ensures forall c, j :: 0 <= c < num_components && 0 <= j < 64 && c != x.component_index[ci] ==>
              last_bitpos[c, j] == old(last_bitpos[c, j])
    ensures ok <==>
      && (x.Ss != 0 ==> LastBit(script, x.component_index[ci], 0) >= 0)
      && forall j :: x.Ss <= j <= x.Se ==> Follows(LastBit(script, x.component_index[ci], j), x.Ah, x.Al)
    ensures ok ==> forall j :: 0 <= j < 64 ==>
      last_bitpos[x.component_index[ci], j] ==
        if x.Ss <= j <= x.Se then x.Al else LastBit(script, x.component_index[ci], j)
  {
    hide LastBit;
    var comp := x.component_index[ci];
    if x.Ss != 0 && last_bitpos[comp, 0] < 0 {
      return false;
    }
    var coefi := x.Ss;
    while coefi <= x.Se
      invariant x.Ss <= coefi <= x.Se + 1
      invariant forall c, j :: 0 <= c < num_components && 0 <= j < 64 && c != comp ==>
          last_bitpos[c, j] == old(last_bitpos[c, j])
      invariant forall j :: 0 <= j < 64 ==>
        last_bitpos[comp, j] == if x.Ss <= j < coefi then x.Al else LastBit(script, comp, j)
      invariant forall j :: x.Ss <= j < coefi ==> Follows(LastBit(script, comp, j), x.Ah, x.Al)
    {
      if last_bitpos[comp, coefi] < 0 {
        if x.Ah != 0 {
          return false;
        }
      } else {
        if x.Ah != last_bitpos[comp, coefi] || x.Al != x.Ah - 1 {
          return false;
        }
      }
      assert Follows(LastBit(script, comp, coefi), x.Ah, x.Al);
      last_bitpos[comp, coefi] := x.Al;
      coefi := coefi + 1;
    }
    ok := true;
  }

  /** One scan of a progressive script. */
  method CheckProgressive(x: Scan, last_bitpos: array2<int>, ghost script: seq<Scan>, num_components: nat)
    returns (ok: bool)
    requires Entries(script) && |x.component_index| == MAX_COMPS_IN_SCAN && ComponentsOk(x, num_components)
    requires num_components <= last_bitpos.Length0 && last_bitpos.Length1 == 64
    requires forall c, j :: 0 <= c < num_components && 0 <= j < 64 ==> last_bitpos[c, j] == LastBit(script, c, j)
    modifies last_bitpos
    ensures ok <==> StepOk(script, x, num_components)
    ensures Entries(script + [x])
    ensures ok ==> forall c, j :: 0 <= c < num_components && 0 <= j < 64 ==>
        last_bitpos[c, j] == LastBit(script + [x], c, j)
  {
    hide LastBit, Follows;
    if x.Ss < 0 || x.Ss >= 64 || x.Se < x.Ss || x.Se >= 64 ||
       x.Ah < 0 || x.Ah > MAX_AH_AL || x.Al < 0 || x.Al > MAX_AH_AL {
      return false;
    }
    if x.Ss == 0 {
      if x.Se != 0 {
        return false;
      }
    } else {
      if x.comps_in_scan != 1 {
        return false;
      }
    }
    var ci := 0;
    while ci < x.comps_in_scan
      invariant 0 <= ci <= x.comps_in_scan
      invariant forall i :: 0 <= i < ci ==>
        && (x.Ss != 0 ==> LastBit(script, x.component_index[i], 0) >= 0)
        && forall j :: x.Ss <= j <= x.Se ==> Follows(LastBit(script, x.component_index[i], j), x.Ah, x.Al)
      invariant forall c, j :: 0 <= c < num_components && 0 <= j < 64 ==>
        last_bitpos[c, j] ==
          if x.Ss <= j <= x.Se && Among(x, ci, c) then x.Al else LastBit(script, c, j)
    {
      NotYet(x, ci, num_components);
      ok := CheckComponent(x, ci, last_bitpos, script, num_components);
      if !ok {
        assert HasComponent(x, x.component_index[ci]);
        return;
      }
      AmongNext(x, ci, num_components);
      ci := ci + 1;
    }
    StepIs(script, x, num_components);
    ok := true;
  }

  /** Component c is one of the scan's first n. */
  ghost predicate Among(x: Scan, n: nat, c: int)
    requires |x.component_index| == MAX_COMPS_IN_SCAN
  {
    exists i :: 0 <= i < n && i < MAX_COMPS_IN_SCAN && x.component_index[i] == c
  }

  lemma NotYet(x: Scan, n: nat, num_components: nat)
    requires |x.component_index| == MAX_COMPS_IN_SCAN && ComponentsOk(x, num_components) && n < x.comps_in_scan
    ensures !Among(x, n, x.component_index[n])
  {
    forall i | 0 <= i < n ensures x.component_index[i] < x.component_index[n] {
      IndexesAscend(x, num_components, i, n);
    }
  }

  lemma {:induction false} IndexesAscend(x: Scan, num_components: nat, i: nat, n: nat)
    requires |x.component_index| == MAX_COMPS_IN_SCAN && ComponentsOk(x, num_components) && i < n < x.comps_in_scan
    ensures x.component_index[i] < x.component_index[n]
  {
    if i < n - 1 {
      IndexesAscend(x, num_components, i, n - 1);
    }
  }

  lemma AmongNext(x: Scan, n: nat, num_components: nat)
    requires |x.component_index| == MAX_COMPS_IN_SCAN && ComponentsOk(x, num_components) && n < x.comps_in_scan
    ensures forall c :: Among(x, n + 1, c) <==> Among(x, n, c) || c == x.component_index[n]
  {
    assert Among(x, n + 1, x.component_index[n]);
  }

  lemma StepIs(script: seq<Scan>, x: Scan, num_components: nat)
    requires Entries(script) && |x.component_index| == MAX_COMPS_IN_SCAN && ComponentsOk(x, num_components)
    requires RangesOk(x)
    requires forall i :: 0 <= i < x.comps_in_scan ==>
      && (x.Ss != 0 ==> LastBit(script, x.component_index[i], 0) >= 0)
      && forall j :: x.Ss <= j <= x.Se ==> Follows(LastBit(script, x.component_index[i], j), x.Ah, x.Al)
    ensures StepOk(script, x, num_components) && Entries(script + [x])
    ensures forall c, j ::
      LastBit(script + [x], c, j) ==
        if x.Ss <= j <= x.Se && Among(x, x.comps_in_scan, c) then x.Al else LastBit(script, c, j)
  {
    hide Follows;
    assert (script + [x])[..|script|] == script;
  }

  // The whole script ---------------------------------------------------------------------------------

  /** An acceptable next scan of a sequential script. */
  ghost predicate FullStepOk(script: seq<Scan>, x: Scan, num_components: nat)
    requires Entries(script) && |x.component_index| == MAX_COMPS_IN_SCAN
  {
    && ComponentsOk(x, num_components)
    && x.Ss == 0 && x.Se == 63 && x.Ah == 0 && x.Al == 0
    && forall c :: HasComponent(x, c) ==> !SentIn(script, c)
  }

  ghost predicate FullStepsOk(script: seq<Scan>, num_components: nat)
    requires Entries(script)
  {
    forall n :: 0 <= n < |script| ==> FullStepOk(script[..n], script[n], num_components)
  }

  /** Not sent twice, scan by scan, is the same as no two scans sharing a component. */
  lemma StepsAreSequential(script: seq<Scan>, num_components: nat)
    requires Entries(script)
    ensures SequentialOk(script, num_components) <==>
            FullStepsOk(script, num_components) && forall c :: 0 <= c < num_components ==> SentIn(script, c)
  {
    hide ComponentsOk, HasComponent;
    if FullStepsOk(script, num_components) {
      forall m, n, c | 0 <= m < n < |script| && HasComponent(script[n], c) ensures !HasComponent(script[m], c) {
        assert FullStepOk(script[..n], script[n], num_components);
        assert script[..n][m] == script[m];
      }
      forall n | 0 <= n < |script|
        ensures ComponentsOk(script[n], num_components)
        ensures script[n].Ss == 0 && script[n].Se == 63 && script[n].Ah == 0 && script[n].Al == 0
      {
        assert FullStepOk(script[..n], script[n], num_components);
      }
    }
    if SequentialOk(script, num_components) {
      forall n | 0 <= n < |script| ensures FullStepOk(script[..n], script[n], num_components) {
      }
    }
  }

  /** One scan of a sequential script. */
  method CheckFull(x: Scan, component_sent: array<bool>, ghost script: seq<Scan>, num_components: nat)
    returns (ok: bool)
    requires Entries(script) && |x.component_index| == MAX_COMPS_IN_SCAN && ComponentsOk(x, num_components)
    requires num_components <= component_sent.Length
    requires forall c :: 0 <= c < num_components ==> (component_sent[c] <==> SentIn(script, c))
    modifies component_sent
    ensures ok <==> FullStepOk(script, x, num_components)
    ensures Entries(script + [x])
    ensures ok ==> forall c :: 0 <= c < num_components ==> (component_sent[c] <==> SentIn(script + [x], c))
  {
    hide SentIn;
    if x.Ss != 0 || x.Se != 63 || x.Ah != 0 || x.Al != 0 {
      return false;
    }
    var ci := 0;
    while ci < x.comps_in_scan
      invariant 0 <= ci <= x.comps_in_scan
      invariant forall c :: Among(x, ci, c) ==> !SentIn(script, c)
      invariant forall c :: 0 <= c < num_components ==> (component_sent[c] <==> SentIn(script, c) || Among(x, ci, c))
    {
      NotYet(x, ci, num_components);
      var thisi := x.component_index[ci];
      if component_sent[thisi] {
        assert HasComponent(x, thisi);
        return false;
      }
      AmongNext(x, ci, num_components);
      component_sent[thisi] := true;
      ci := ci + 1;
    }
    assert forall c :: Among(x, ci, c) <==> HasComponent(x, c);
    SentNext(script, x);
    ok := true;
  }

  lemma SentNext(script: seq<Scan>, x: Scan)
    requires Entries(script) && |x.component_index| == MAX_COMPS_IN_SCAN
    ensures Entries(script + [x])
    ensures forall c :: SentIn(script + [x], c) <==> SentIn(script, c) || HasComponent(x, c)
  {
    hide HasComponent;
    var s := script + [x];
    assert s[|script|] == x;
    forall c | SentIn(script, c) ensures SentIn(s, c) {
      var n :| 0 <= n < |script| && HasComponent(script[n], c);
      assert s[n] == script[n];
    }
  }

  lemma Longer(script: seq<Scan>, n: nat, num_components: nat)
    requires Entries(script) && n < |script|
    ensures script[..n + 1] == script[..n] + [script[n]]
    ensures StepsOk(script[..n + 1], num_components) <==>
            StepsOk(script[..n], num_components) && StepOk(script[..n], script[n], num_components)
    ensures FullStepsOk(script[..n + 1], num_components) <==>
            FullStepsOk(script[..n], num_components) && FullStepOk(script[..n], script[n], num_components)
  {
    hide StepOk, FullStepOk;
    assert script[..n + 1] == script[..n] + [script[n]];
    assert forall i :: 0 <= i <= n ==> script[..n + 1][..i] == script[..i];
    assert forall i :: 0 <= i < n ==> script[..n][..i] == script[..i];
    assert forall i :: 0 <= i < n ==> script[..n][i] == script[..n + 1][i];
    assert script[..n + 1][n] == script[n];
  }

  lemma Shorter(script: seq<Scan>, n: nat, num_components: nat)
    requires Entries(script) && n <= |script|
    ensures StepsOk(script, num_components) ==> StepsOk(script[..n], num_components)
    ensures FullStepsOk(script, num_components) ==> FullStepsOk(script[..n], num_components)
  {
    hide StepOk, FullStepOk;
    assert forall i :: 0 <= i < n ==> script[..n][..i] == script[..i] && script[..n][i] == script[i];
  }

  /** Accepts exactly the acceptable scripts, and tells progressive ones from sequential ones. */
  method ValidateScript(scan_info: seq<Scan>, num_components: nat) returns (ok: bool, progressive_mode: bool)
    requires Entries(scan_info) && num_components <= 10
    ensures ok <==> Accepted(scan_info, num_components)
    ensures ok ==> (progressive_mode <==> ProgressiveOk(scan_info, num_components))
  {
    hide StepOk, FullStepOk, LastBit, SentIn, StepsOk, FullStepsOk, SequentialOk, ComponentsOk;
    ok, progressive_mode := false, false;
    if |scan_info| <= 0 {
      return;
    }
    var last_bitpos := new int[MAX_COMPONENTS, 64]((c, j) => -1);
    var component_sent := new bool[MAX_COMPONENTS](c => false);
    progressive_mode := scan_info[0].Ss != 0 || scan_info[0].Se != 63;
    Start(scan_info, num_components);
    var scanno := 0;
    while scanno < |scan_info|
      invariant 0 <= scanno <= |scan_info|
      invariant progressive_mode ==> StepsOk(scan_info[..scanno], num_components)
      invariant progressive_mode ==> forall c, j :: 0 <= c < num_components && 0 <= j < 64 ==>
        last_bitpos[c, j] == LastBit(scan_info[..scanno], c, j)
      invariant !progressive_mode ==> FullStepsOk(scan_info[..scanno], num_components)
      invariant !progressive_mode ==> forall c :: 0 <= c < num_components ==>
        (component_sent[c] <==> SentIn(scan_info[..scanno], c))
    {
      var x := scan_info[scanno];
      Longer(scan_info, scanno, num_components);
      Shorter(scan_info, scanno + 1, num_components);
      StepsAreSequential(scan_info, num_components);
      ok := CheckComponents(x, num_components);
      StepsNeedComponents(scan_info[..scanno], x, num_components);
      if !ok {
        return;
      }
      if progressive_mode {
        ok := CheckProgressive(x, last_bitpos, scan_info[..scanno], num_components);
      } else {
        ok := CheckFull(x, component_sent, scan_info[..scanno], num_components);
      }
      if !ok {
        return;
      }
      scanno := scanno + 1;
    }
    assert scan_info[..scanno] == scan_info;
    StepsAreSequential(scan_info, num_components);
    var ci := 0;
    while ci < num_components
      invariant 0 <= ci <= num_components
      invariant forall c :: 0 <= c < ci ==>
          if progressive_mode then LastBit(scan_info, c, 0) >= 0 else SentIn(scan_info, c)
    {
      if (if progressive_mode then last_bitpos[ci, 0] < 0 else !component_sent[ci]) {
        ok := false;
        return;
      }
      ci := ci + 1;
    }
    ok := true;
    if !progressive_mode {
      NotBoth(scan_info, num_components);
    }
  }

  lemma Start(script: seq<Scan>, num_components: nat)
    requires Entries(script)
    ensures StepsOk(script[..0], num_components) && FullStepsOk(script[..0], num_components)
    ensures forall c, j :: LastBit(script[..0], c, j) == -1
    ensures forall c :: !SentIn(script[..0], c)
  {
  }

  lemma StepsNeedComponents(script: seq<Scan>, x: Scan, num_components: nat)
    requires Entries(script) && |x.component_index| == MAX_COMPS_IN_SCAN
    ensures StepOk(script, x, num_components) ==> ComponentsOk(x, num_components)
    ensures FullStepOk(script, x, num_components) ==> ComponentsOk(x, num_components)
  {
  }

  /** A script of one DC scan is accepted for up to four components together, down to bit 10 at most. */
  lemma DcAlone(n: nat, al: int)
    ensures var script := [Scan(n, [0, 1, 2, 3], 0, 0, 0, al)];
      Entries(script) && (Accepted(script, n) <==> 1 <= n <= 4 && 0 <= al <= 10)
  {
    var x := Scan(n, [0, 1, 2, 3], 0, 0, 0, al);
    assert [x][..0] == [];
    if Accepted([x], n) {
      assert StepOk([x][..0], [x][0], n);
    }
    if 1 <= n <= 4 && 0 <= al <= 10 {
      assert StepOk([], x, n);
      forall c | 0 <= c < n ensures LastBit([x], c, 0) >= 0 {
        assert x.component_index[c] == c;
      }
    }
  }

  /** No script is acceptable both ways: a progressive scan never mixes DC with AC. */
  lemma NotBoth(script: seq<Scan>, num_components: nat)
    requires Entries(script) && |script| > 0 && script[0].Ss == 0 && script[0].Se == 63
    ensures !StepsOk(script, num_components)
  {
    assert !StepOk(script[..0], script[0], num_components);
  }
}
