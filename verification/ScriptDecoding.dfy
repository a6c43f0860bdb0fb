/** Scan scripts and entropy decoders together: in an accepted progressive script every scan finds the
    blocks as its decoding routine expects them, and leaves them as the next one does. */
module ScriptDecoding {
  import opened BandPlan
  import opened BandDecoder
  import opened ArithScan
  import opened ArithScanDecoder
  import opened ScanScript

  /** The blocks of component c as decoded by all the scans of a script. */
  ghost function DecodedBy(script: seq<Scan>, c: int, v: seq<int>): (z: seq<int>)
    requires Entries(script) && |v| == 64
    ensures |z| == 64 && forall j :: 0 <= j < 64 ==> z[j] == Composed(script, c, j, v[j])
  {
    seq(64, j requires 0 <= j < 64 => Composed(script, c, j, v[j]))
  }

  /** The arithmetic coder's routine for a progressive scan. */
  ghost predicate ArithRoutine(g: Config, x: Scan) {
    && g.ss == x.Ss && g.se == x.Se && g.al == x.Al
    && g.kind == if x.Ss == 0 then if x.Ah == 0 then DcFirst else DcRefine
                 else if x.Ah == 0 then AcFirst else AcRefine
  }

  /** The Huffman coder's routine for a progressive AC scan. */
  ghost predicate HuffmanRoutine(b: Band, x: Scan) {
    x.Ss > 0 && b.ss == x.Ss && b.se == x.Se && b.al == x.Al && (b.first <==> x.Ah == 0)
  }

  /** What scan x does to coefficient j of its component c. */
  lemma OneMoreScan(script: seq<Scan>, x: Scan, n: nat, c: int, j: nat, v: int)
    requires Entries(script) && |x.component_index| == MAX_COMPS_IN_SCAN && StepsOk(script, n) && StepOk(script, x, n)
    requires HasComponent(x, c) && j < 64
    ensures Entries(script + [x]) && 0 <= x.Al
    ensures Composed(script + [x], c, j, v) ==
            if x.Ss <= j <= x.Se then Known(j, v, x.Al) else Composed(script, c, j, v)
    ensures x.Ss <= j <= x.Se ==>
      if x.Ah == 0 then Composed(script, c, j, v) == 0 && LastBit(script, c, j) < 0
      else Composed(script, c, j, v) == Known(j, v, x.Al + 1)
  {
    hide Known, RefineCoef;
    assert (script + [x])[..|script|] == script;
    ScriptComposes(script, n, c, j, v);
    if x.Ss <= j <= x.Se {
      var last := LastBit(script, c, j);
      FollowsIs(last, x.Ah, x.Al);
      if x.Ah != 0 {
        RefineIsKnown(j, v, x.Al);
      }
    }
  }

  /** Arithmetic coding: the block found is what the routine expects, and the block it leaves is the
      script's with this scan. */
  lemma ArithScansFit(script: seq<Scan>, x: Scan, n: nat, c: int, v: seq<int>, g: Config)
    requires Entries(script) && |x.component_index| == MAX_COMPS_IN_SCAN && StepsOk(script, n) && StepOk(script, x, n)
    requires HasComponent(x, c) && |v| == 64 && ArithRoutine(g, x)
    ensures Entries(script + [x])
    ensures Before(g, DecodedBy(script, c, v), v)
    ensures After(g, DecodedBy(script, c, v), v) == DecodedBy(script + [x], c, v)
  {
    hide Known, Composed, StepOk, StepsOk, HasComponent;
    var z := DecodedBy(script, c, v);
    OneMoreScan(script, x, n, c, 0, v[0]);
    forall j | 0 <= j < 64
      ensures After(g, z, v)[j] == DecodedBy(script + [x], c, v)[j]
      ensures x.Ss <= j <= x.Se ==> if x.Ah == 0 then z[j] == 0 else z[j] == Known(j, v[j], x.Al + 1)
    {
      OneMoreScan(script, x, n, c, j, v[j]);
    }
  }

  /** Huffman coding of AC scans: the same. */
  lemma HuffmanScansFit(script: seq<Scan>, x: Scan, n: nat, c: int, v: seq<int>, b: Band, z: seq<int>)
    requires Entries(script) && |x.component_index| == MAX_COMPS_IN_SCAN && StepsOk(script, n) && StepOk(script, x, n)
    requires HasComponent(x, c) && |v| == 64 && HuffmanRoutine(b, x)
    ensures Entries(script + [x])
    ensures Refining(DecodedBy(script, c, v), DecodedBy(script, c, v), v, b, b.ss)
    ensures Refining(z, DecodedBy(script, c, v), v, b, b.se + 1) ==> z == DecodedBy(script + [x], c, v)
  {
    hide Composed, StepOk, StepsOk, HasComponent, Trunc;
    var found := DecodedBy(script, c, v);
    OneMoreScan(script, x, n, c, 0, v[0]);
    forall j | 0 <= j < 64
      ensures DecodedBy(script + [x], c, v)[j] == if b.ss <= j <= b.se then Trunc(v[j], b.al) else found[j]
      ensures b.ss <= j <= b.se ==> if b.first then found[j] == 0 else found[j] == Trunc(v[j], b.al + 1)
    {
      OneMoreScan(script, x, n, c, j, v[j]);
    }
  }

  /** A scan leaves the components it does not name alone. */
  lemma OthersUntouched(script: seq<Scan>, x: Scan, c: int, v: seq<int>)
    requires Entries(script) && |x.component_index| == MAX_COMPS_IN_SCAN && !HasComponent(x, c) && |v| == 64
    ensures Entries(script + [x]) && DecodedBy(script + [x], c, v) == DecodedBy(script, c, v)
  {
    hide HasComponent, Scanned;
    assert (script + [x])[..|script|] == script;
  }
}
