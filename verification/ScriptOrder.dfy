/** What makes a progressive script acceptable, scan against scan: no bookkeeping of bit positions, only which
    scans send what before which. */
module ScriptOrder {
  import opened ScanScript

  /** One scan on its own: one to four components in ascending order; all of DC, or a band of AC of one component;
      bit positions up to 10. */
  ghost predicate Shaped(x: Scan, num_components: nat)
    requires |x.component_index| == MAX_COMPS_IN_SCAN
  {
    && 1 <= x.comps_in_scan <= 4
    && (forall i :: 0 <= i < x.comps_in_scan ==> 0 <= x.component_index[i] < num_components)
    && (forall i, k :: 0 <= i < k < x.comps_in_scan ==> x.component_index[i] < x.component_index[k])
    && 0 <= x.Ah <= 10 && 0 <= x.Al <= 10
    && ((x.Ss == 0 && x.Se == 0) || (1 <= x.Ss <= x.Se <= 63 && x.comps_in_scan == 1))
  }

  /** Scan m is the one before scan n to send coefficient j of component c. */
  ghost predicate Precedes(script: seq<Scan>, m: int, n: int, c: int, j: int)
    requires Entries(script) && 0 <= n <= |script|
  {
    && 0 <= m < n && Covers(script[m], c, j)
    && forall i :: m < i < n ==> !Covers(script[i], c, j)
  }

  ghost predicate SentBefore(script: seq<Scan>, n: int, c: int, j: int)
    requires Entries(script) && 0 <= n <= |script|
  {
    exists m :: 0 <= m < n && Covers(script[m], c, j)
  }

  /** Scan n continues for coefficient j of component c where the scan before it stopped: the first starts afresh, each
      other refines by one bit; and AC waits for DC. */
  ghost predicate Continues(script: seq<Scan>, n: int, c: int, j: int)
    requires Entries(script) && 0 <= n < |script|
  {
    && (!SentBefore(script, n, c, j) ==> script[n].Ah == 0)
    && (forall m :: Precedes(script, m, n, c, j) ==> script[n].Ah == script[m].Al && script[n].Al == script[n].Ah - 1)
    && (j > 0 ==> SentBefore(script, n, c, 0))
  }

  ghost predicate InOrder(script: seq<Scan>, num_components: nat)
    requires Entries(script)
  {
    && (forall n :: 0 <= n < |script| ==> Shaped(script[n], num_components))
    && (forall n, c, j :: 0 <= n < |script| && Covers(script[n], c, j) ==> Continues(script, n, c, j))
    && (forall c :: 0 <= c < num_components ==> SentBefore(script, |script|, c, 0))
  }

  /** The last bit sent is that of the latest scan, if any. */
  lemma {:induction false} LastBitIs(script: seq<Scan>, n: nat, c: int, j: int)
    requires Entries(script) && n <= |script| && forall i :: 0 <= i < n ==> script[i].Al >= 0
    ensures !SentBefore(script, n, c, j) ==> LastBit(script[..n], c, j) == -1
    ensures SentBefore(script, n, c, j) ==> LastBit(script[..n], c, j) >= 0
    ensures forall m :: Precedes(script, m, n, c, j) ==> LastBit(script[..n], c, j) == script[m].Al
  {
    hide Covers;
    if n > 0 {
      LastBitIs(script, n - 1, c, j);
      assert script[..n][..n - 1] == script[..n - 1];
      forall m | Precedes(script, m, n, c, j) ensures LastBit(script[..n], c, j) == script[m].Al {
        if m < n - 1 {
          assert Precedes(script, m, n - 1, c, j);
        }
      }
    }
  }

  lemma {:induction false} LatestScan(script: seq<Scan>, n: nat, c: int, j: int) returns (m: nat)
    requires Entries(script) && n <= |script| && SentBefore(script, n, c, j)
    ensures Precedes(script, m, n, c, j)
  {
    hide Covers;
    if Covers(script[n - 1], c, j) {
      m := n - 1;
    } else {
      m := LatestScan(script, n - 1, c, j);
    }
  }

  lemma ShapedIs(x: Scan, num_components: nat)
    requires |x.component_index| == MAX_COMPS_IN_SCAN
    ensures Shaped(x, num_components) <==> ComponentsOk(x, num_components) && RangesOk(x)
  {
    if ComponentsOk(x, num_components) {
      forall i, k | 0 <= i < k < x.comps_in_scan ensures x.component_index[i] < x.component_index[k] {
        IndexesAscend(x, num_components, i, k);
      }
    }
  }

  lemma ContinuesIs(script: seq<Scan>, n: nat, c: int, j: int)
    requires Entries(script) && n < |script| && forall i :: 0 <= i < n ==> script[i].Al >= 0
    ensures Continues(script, n, c, j) <==>
      && Follows(LastBit(script[..n], c, j), script[n].Ah, script[n].Al)
      && (j > 0 ==> LastBit(script[..n], c, 0) >= 0)
  {
    hide Covers, LastBit, SentBefore, Precedes;
    LastBitIs(script, n, c, j);
    LastBitIs(script, n, c, 0);
    forall m | Precedes(script, m, n, c, j) ensures SentBefore(script, n, c, j) {
      PrecedesIsSent(script, m, n, c, j);
    }
    if SentBefore(script, n, c, j) {
      var m := LatestScan(script, n, c, j);
    }
  }

  lemma PrecedesIsSent(script: seq<Scan>, m: int, n: nat, c: int, j: int)
    requires Entries(script) && n <= |script| && Precedes(script, m, n, c, j)
    ensures SentBefore(script, n, c, j)
  {
    hide Covers;
  }

  /** One step, scan against earlier scans. */
  lemma StepIsInOrder(script: seq<Scan>, n: nat, num_components: nat)
    requires Entries(script) && n < |script| && forall i :: 0 <= i < n ==> script[i].Al >= 0
    ensures StepOk(script[..n], script[n], num_components) <==>
      Shaped(script[n], num_components) && forall c, j :: Covers(script[n], c, j) ==> Continues(script, n, c, j)
  {
    hide LastBit, Follows, Continues, ComponentsOk, HasComponent;
    var x := script[n];
    ShapedIs(x, num_components);
    forall c, j ensures Continues(script, n, c, j) <==>
      Follows(LastBit(script[..n], c, j), x.Ah, x.Al) && (j > 0 ==> LastBit(script[..n], c, 0) >= 0)
    {
      ContinuesIs(script, n, c, j);
    }
    if Shaped(x, num_components) && forall c, j :: Covers(x, c, j) ==> Continues(script, n, c, j) {
      forall c | HasComponent(x, c)
        ensures x.Ss != 0 ==> LastBit(script[..n], c, 0) >= 0
        ensures forall j :: x.Ss <= j <= x.Se ==> Follows(LastBit(script[..n], c, j), x.Ah, x.Al)
      {
        assert Covers(x, c, x.Ss);
        forall j | x.Ss <= j <= x.Se ensures Follows(LastBit(script[..n], c, j), x.Ah, x.Al) {
          assert Covers(x, c, j);
        }
      }
    }
  }

  /** A progressive script is accepted exactly if its scans are well shaped, continue one another coefficient by
      coefficient, and send some DC of every component. */
  lemma ProgressiveIsInOrder(script: seq<Scan>, num_components: nat)
    requires Entries(script)
    ensures ProgressiveOk(script, num_components) <==> InOrder(script, num_components)
  {
    hide StepOk, LastBit, Covers, Continues, Shaped, SentBefore;
    if ProgressiveOk(script, num_components) {
      AllSteps(script, num_components);
    }
    if InOrder(script, num_components) {
      AllShaped(script, num_components);
    }
    if forall i :: 0 <= i < |script| ==> script[i].Al >= 0 {
      forall n | 0 <= n < |script|
        ensures StepOk(script[..n], script[n], num_components) <==>
          Shaped(script[n], num_components) && forall c, j :: Covers(script[n], c, j) ==> Continues(script, n, c, j)
      {
        StepIsInOrder(script, n, num_components);
      }
      assert script[..|script|] == script;
      forall c ensures LastBit(script, c, 0) >= 0 <==> SentBefore(script, |script|, c, 0) {
        LastBitIs(script, |script|, c, 0);
      }
    }
  }

  lemma AllShaped(script: seq<Scan>, num_components: nat)
    requires Entries(script) && forall n :: 0 <= n < |script| ==> Shaped(script[n], num_components)
    ensures forall i :: 0 <= i < |script| ==> script[i].Al >= 0
  {
  }

  lemma AllSteps(script: seq<Scan>, num_components: nat)
    requires Entries(script) && StepsOk(script, num_components)
    ensures forall i :: 0 <= i < |script| ==> script[i].Al >= 0
  {
    hide LastBit, Follows;
    forall i | 0 <= i < |script| ensures script[i].Al >= 0 {
      assert StepOk(script[..i], script[i], num_components);
    }
  }
}
