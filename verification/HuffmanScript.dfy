/** Whole progressive scripts through the Huffman coder: every scan with tables from its own statistics. */
module HuffmanScript {
  import opened Numbers
  import opened Values
  import opened BandPlan
  import opened BandEncoder
  import opened SequentialPlan
  import opened SequentialEncoder
  import opened SequentialScanDecoder
  import opened DcDecoder
  import opened ScanScript
  import opened ScriptDecoding
  import opened SimpleProgression
  import opened ScriptImage
  import opened Placement
  import opened TwoPass
  import ArithScanDecoder
  import BandDecoder
  import BandScan
  import BandScanDecoder
  import BandRoundTrip
  import SequentialScan
  import SequentialRoundTrip
  import HuffmanTree
  import HuffmanGenerator
  import CodeLengths

  /** How one scan of the script is coded: the tables of its components, the blocks it codes, the restart
      interval, the bytes around its data, the code of the marker that ends it, and how many bytes the
      decoder has at first. */
  datatype Job = Job(y: Layout, slots: Slots, interval: nat, dest: seq<int>, marker: int, tail: seq<int>,
                     delivered: nat)

  /** The routine for a DC scan, and for an AC scan. */
  function FormOf(x: Scan): Form
    requires x.Al >= 0
  {
    if x.Ah == 0 then FirstDc(x.Al) else NextDc(x.Al)
  }

  function BandOf(x: Scan): Band
    requires 0 <= x.Ss && 0 <= x.Se && 0 <= x.Al
  {
    Band(x.Ss, x.Se, x.Al, x.Ah == 0)
  }

  /** The job codes scan x, which has at least one MCU and a block of each component in every MCU. */
  ghost predicate Codes(j: Job, x: Scan, image: Image, actual: seq<set<nat>>)
    requires |x.component_index| == MAX_COMPS_IN_SCAN
  {
    && Serves(j.slots, x, image, actual) && RangesOk(x) && IsLayout(j.y) && SequentialRoundTrip.Covered(j.y)
    && |j.slots.at| > 0
    && j.slots.member == j.y.member && |j.slots.comps| == |j.y.dc| && (x.Ss > 0 ==> j.slots.member == [0])
    && 0 < j.marker < 0xFF && j.delivered <= |j.dest|
  }

  lemma FetchedMcus(j: Job, x: Scan, image: Image, actual: seq<set<nat>>)
    requires |x.component_index| == MAX_COMPS_IN_SCAN && Codes(j, x, image, actual) && IsImage(image)
    ensures Placed(j.slots, image) && SequentialScan.NaturalMcus(j.y, Fetch(image, j.slots))
  {
  }

  /** The blocks of a scan of one block to an MCU. */
  function Column(mcus: seq<seq<seq<int>>>): (r: seq<seq<int>>)
    requires forall m :: 0 <= m < |mcus| ==> |mcus[m]| == 1
    ensures |r| == |mcus| && forall m :: 0 <= m < |r| ==> r[m] == mcus[m][0]
  {
    seq(|mcus|, m requires 0 <= m < |mcus| => mcus[m][0])
  }

  lemma FetchedBlocks(j: Job, x: Scan, image: Image, actual: seq<set<nat>>)
    requires |x.component_index| == MAX_COMPS_IN_SCAN && Codes(j, x, image, actual) && IsImage(image) && x.Ss > 0
    ensures Placed(j.slots, image) && (forall m :: 0 <= m < |Fetch(image, j.slots)| ==> |Fetch(image, j.slots)[m]| == 1)
    ensures BandScan.NaturalBlocks(Column(Fetch(image, j.slots)))
  {
  }

  // What is coded --------------------------------------------------------------------------------

  ghost function DcTokens(j: Job, x: Scan, image: Image, actual: seq<set<nat>>, order: seq<nat>): seq<Tagged>
    requires |x.component_index| == MAX_COMPS_IN_SCAN && Codes(j, x, image, actual) && IsImage(image) && IsZigzag(order)
  {
    FetchedMcus(j, x, image, actual);
    SequentialScan.ScanTokens(j.y, SequentialScan.ZigzagMcus(j.y, Fetch(image, j.slots), order), j.interval, FormOf(x))
  }

  ghost function AcTotals(j: Job, x: Scan, image: Image, actual: seq<set<nat>>, order: seq<nat>): seq<nat>
    requires |x.component_index| == MAX_COMPS_IN_SCAN && Codes(j, x, image, actual) && IsImage(image) && IsZigzag(order)
    requires x.Ss > 0
  {
    FetchedBlocks(j, x, image, actual);
    Counts(BandScan.ScanTokens(BandScan.Zigzags(Column(Fetch(image, j.slots)), order), j.interval, BandOf(x)))
  }

  /** The symbols are few enough for the search for least counts. */
  ghost predicate Counted(j: Job, x: Scan, image: Image, actual: seq<set<nat>>, order: seq<nat>)
    requires |x.component_index| == MAX_COMPS_IN_SCAN && Codes(j, x, image, actual) && IsImage(image) && IsZigzag(order)
  {
    if x.Ss == 0 then SequentialRoundTrip.Countable(DcTokens(j, x, image, actual, order))
    else HuffmanTree.Sum(AcTotals(j, x, image, actual, order)) <= HuffmanTree.LIMIT
  }

  /** Every value of the scan can be coded. */
  ghost predicate Codable(j: Job, x: Scan, image: Image, actual: seq<set<nat>>, order: seq<nat>)
    requires |x.component_index| == MAX_COMPS_IN_SCAN && Codes(j, x, image, actual) && IsImage(image) && IsZigzag(order)
  {
    if x.Ss == 0 then
      FetchedMcus(j, x, image, actual);
      SequentialScan.ScanInRange(j.y, SequentialScan.ZigzagMcus(j.y, Fetch(image, j.slots), order), j.interval,
                                 FormOf(x))
    else
      FetchedBlocks(j, x, image, actual);
      BandScan.AllExpressible(BandScan.Zigzags(Column(Fetch(image, j.slots)), order), BandOf(x))
  }

  /** An optimal code for the symbols of one of the scan's tables has a length over 32. */
  ghost predicate TooLong(j: Job, x: Scan, image: Image, actual: seq<set<nat>>, order: seq<nat>, size: seq<nat>)
    requires |x.component_index| == MAX_COMPS_IN_SCAN && Codes(j, x, image, actual) && IsImage(image) && IsZigzag(order)
  {
    && (exists i :: 0 <= i < |size| && size[i] > CodeLengths.MAX_CLEN)
    && if x.Ss == 0 then
         exists t: nat :: HuffmanGenerator.Optimal(Counts(Only(DcTokens(j, x, image, actual, order), t)) + [1], size)
       else HuffmanGenerator.Optimal(AcTotals(j, x, image, actual, order) + [1], size)
  }

  // DC scans ---------------------------------------------------------------------------------------

  function Limits(y: Layout): (r: seq<nat>) {
    seq(|y.member|, _ => 64)
  }

  /** Any blocks will do for a DC scan. */
  lemma DcExpected(j: Job, x: Scan, image: Image, actual: seq<set<nat>>, order: seq<nat>, now: Image)
    requires |x.component_index| == MAX_COMPS_IN_SCAN && Codes(j, x, image, actual) && IsImage(image) && IsImage(now)
    requires IsZigzag(order) && SameShape(image, now) && x.Ss == 0
    ensures Placed(j.slots, now) && SequentialScan.NaturalMcus(j.y, Fetch(image, j.slots))
    ensures var vs := SequentialScan.ZigzagMcus(j.y, Fetch(image, j.slots), order);
      SequentialRoundTrip.Expected(Fetch(now, j.slots), vs, order, Limits(j.y), FormOf(x))
  {
    hide Zigzag, IsOrder, InSlot;
    FetchedMcus(j, x, image, actual);
    StillPlaced(j.slots, image, now);
    var coefs, vs := Fetch(now, j.slots), SequentialScan.ZigzagMcus(j.y, Fetch(image, j.slots), order);
    forall m | 0 <= m < |coefs| ensures McuState(coefs[m], coefs[m], order, vs[m], Limits(j.y), 0, FormOf(x)) {
      forall i | 0 <= i < |coefs[m]|
        ensures BlockState(coefs[m][i], coefs[m][i], order, vs[m][i], 64, false, FormOf(x))
      {
        assert j.slots.at[m][i] < |now[j.slots.comps[j.slots.member[i]]]|;
      }
    }
  }

  /** A DC scan takes a real block one scan further. */
  lemma DcFits(script: seq<Scan>, x: Scan, n: nat, c: int, v: seq<int>, was: seq<int>, now: seq<int>, order: seq<nat>)
    requires Entries(script) && |x.component_index| == MAX_COMPS_IN_SCAN && StepsOk(script, n) && StepOk(script, x, n)
    requires HasComponent(x, c) && x.Ss == 0 && |v| == |was| == 64 && IsZigzag(order)
    requires Zigzag(was, order) == DecodedBy(script, c, v) && BlockState(now, was, order, v, 64, true, FormOf(x))
    ensures |now| == 64 && Entries(script + [x]) && Zigzag(now, order) == DecodedBy(script + [x], c, v)
  {
    hide StepOk, StepsOk, HasComponent, Composed, BandDecoder.Trunc, Floor, Refined, SetBit;
    OneMoreScan(script, x, n, c, 0, v[0]);
    assert x.Se == 0 by { ScanIsDc(script, x, n); }
    assert now[0] == ArithScanDecoder.Known(0, v[0], x.Al) by {
      if x.Ah != 0 {
        assert was[0] == Zigzag(was, order)[0];
        ArithScanDecoder.RefinedDc(v[0], x.Al);
        RefinedIs(was[0], v[0], x.Al);
      }
    }
    forall j | 0 <= j < 64 ensures Zigzag(now, order)[j] == DecodedBy(script + [x], c, v)[j] {
      OneMoreScan(script, x, n, c, j, v[j]);
      if j > 0 {
        assert order[j] != order[0];
        assert now[order[j]] == now[1..][order[j] - 1] == was[1..][order[j] - 1] == was[order[j]];
      }
    }
  }

  lemma RefinedIs(x: int, v: int, al: nat)
    ensures Refined(x, v, al) == if Floor(v, al) % 2 != 0 then SetBit(x, Pow2(al)) else x
  {
  }

  lemma ScanIsDc(script: seq<Scan>, x: Scan, n: nat)
    requires Entries(script) && |x.component_index| == MAX_COMPS_IN_SCAN && StepOk(script, x, n) && x.Ss == 0
    ensures x.Se == 0 && RangesOk(x)
  {
  }

  /** A DC scan, statistics, tables, output and decoding. */
  method CodeDc(j: Job, x: Scan, image: Image, before: Image, order: seq<nat>, ghost actual: seq<set<nat>>)
    returns (inRange: bool, ok: bool, result: seq<seq<seq<int>>>, ghost size: seq<nat>)
    requires |x.component_index| == MAX_COMPS_IN_SCAN && Codes(j, x, image, actual) && IsImage(image) && IsZigzag(order)
    requires IsImage(before) && SameShape(image, before) && Placed(j.slots, before) && x.Ss == 0
    requires Counted(j, x, image, actual, order)
    ensures inRange <==> Codable(j, x, image, actual, order)
    ensures inRange && !ok ==> TooLong(j, x, image, actual, order, size)
    ensures inRange && ok ==> |result| == |j.slots.at| && DcDecoded(j, x, image, before, order, result)
  {
    hide SequentialRoundTrip.Expected, SequentialRoundTrip.Decoded, SequentialScan.ScanInRange;
    hide SequentialScan.ScanTokens, IsOrder;
    hide SequentialRoundTrip.Countable, HuffmanGenerator.Optimal, Serves, IsImage, Placed;
    FetchedMcus(j, x, image, actual);
    DcExpected(j, x, image, actual, order, before);
    var needed := seq(|j.y.dc|, _ => true);
    ghost var bad;
    var mcus, coefs := Fetch(image, j.slots), Fetch(before, j.slots);
    inRange, ok, result, bad, size := SequentialRoundTrip.CodeAndDecode(mcus, coefs, j.y, FormOf(x), order, j.interval,
      Limits(j.y), needed, j.dest, j.marker, j.tail, j.delivered);
  }

  ghost predicate DcDecoded(j: Job, x: Scan, image: Image, before: Image, order: seq<nat>, result: seq<seq<seq<int>>>) {
    && IsZigzag(order) && x.Al >= 0 && Placed(j.slots, image) && Placed(j.slots, before)
    && SequentialScan.NaturalMcus(j.y, Fetch(image, j.slots))
    && var vs := SequentialScan.ZigzagMcus(j.y, Fetch(image, j.slots), order);
       SequentialRoundTrip.Decoded(result, Fetch(before, j.slots), vs, order, Limits(j.y), FormOf(x))
  }

  lemma DcKnown(script: seq<Scan>, x: Scan, n: nat, j: Job, image: Image, actual: seq<set<nat>>, order: seq<nat>,
                before: Image, result: seq<seq<seq<int>>>)
    requires Entries(script) && |x.component_index| == MAX_COMPS_IN_SCAN && StepsOk(script, n) && StepOk(script, x, n)
    requires KnownSoFar(script, image, actual, order, before) && Codes(j, x, image, actual) && Entries(script + [x])
    requires x.Ss == 0 && |result| == |j.slots.at| && DcDecoded(j, x, image, before, order, result)
    ensures AllKnown(script + [x], j.slots, image, actual, order, result)
  {
    hide StepsOk, StepOk, Zigzag, IsOrder, DecodedBy, InSlot;
    var coefs, vs := Fetch(before, j.slots), SequentialScan.ZigzagMcus(j.y, Fetch(image, j.slots), order);
    forall m | 0 <= m < |result|
      ensures |result[m]| == |j.slots.member|
      ensures forall i :: 0 <= i < |j.slots.member| ==>
          SlotKnown(script + [x], j.slots, image, actual, order, result, m, i)
    {
      assert McuState(result[m], coefs[m], order, vs[m], Limits(j.y), |vs[m]|, FormOf(x));
      forall i | 0 <= i < |j.slots.member|
        ensures SlotKnown(script + [x], j.slots, image, actual, order, result, m, i)
      {
        DcSlotKnown(script, x, n, j, image, actual, order, before, result, m, i);
      }
    }
  }

  lemma DcSlotKnown(script: seq<Scan>, x: Scan, n: nat, j: Job, image: Image, actual: seq<set<nat>>, order: seq<nat>,
                    before: Image, result: seq<seq<seq<int>>>, m: nat, i: nat)
    requires Entries(script) && |x.component_index| == MAX_COMPS_IN_SCAN && StepsOk(script, n) && StepOk(script, x, n)
    requires KnownSoFar(script, image, actual, order, before) && Codes(j, x, image, actual) && Entries(script + [x])
    requires x.Ss == 0 && |result| == |j.slots.at| && IsZigzag(order) && Placed(j.slots, before) && m < |result|
    requires |result[m]| == |j.slots.member| && i < |j.slots.member|
    requires var c, b := j.slots.comps[j.slots.member[i]], j.slots.at[m][i];
      && b < |before[c]| && b < |image[c]|
      && BlockState(result[m][i], before[c][b], order, Zigzag(image[c][b], order), 64, true, FormOf(x))
    ensures SlotKnown(script + [x], j.slots, image, actual, order, result, m, i)
  {
    hide StepsOk, StepOk, Zigzag, IsOrder, DecodedBy, InSlot;
    var c, b := j.slots.comps[j.slots.member[i]], j.slots.at[m][i];
    if b in actual[c] {
      assert HasComponent(x, c) by { assert x.component_index[j.slots.member[i]] == c; }
      DcFits(script, x, n, c, Zigzag(image[c][b], order), before[c][b], result[m][i], order);
    }
  }

  // AC scans ---------------------------------------------------------------------------------------

  /** In an acceptable script an AC scan finds what its routine expects. */
  lemma AcExpected(script: seq<Scan>, x: Scan, n: nat, j: Job, image: Image, actual: seq<set<nat>>, order: seq<nat>,
                   before: Image)
    requires Entries(script) && |x.component_index| == MAX_COMPS_IN_SCAN && StepsOk(script, n) && StepOk(script, x, n)
    requires KnownSoFar(script, image, actual, order, before) && Codes(j, x, image, actual) && x.Ss > 0
    ensures Placed(j.slots, before)
    ensures (forall m :: 0 <= m < |Fetch(before, j.slots)| ==> |Fetch(before, j.slots)[m]| == 1)
    ensures (forall m :: 0 <= m < |Fetch(image, j.slots)| ==> |Fetch(image, j.slots)[m]| == 1)
    ensures BandScan.NaturalBlocks(Column(Fetch(image, j.slots)))
    ensures BandScanDecoder.Refinable(Column(Fetch(before, j.slots)),
                                      BandScan.Zigzags(Column(Fetch(image, j.slots)), order),
                                      order, BandOf(x))
  {
    hide StepsOk, StepOk, Zigzag, IsOrder, DecodedBy, InSlot, BandDecoder.Refining;
    FetchedBlocks(j, x, image, actual);
    StillPlaced(j.slots, image, before);
    var coefs, vs := Column(Fetch(before, j.slots)), BandScan.Zigzags(Column(Fetch(image, j.slots)), order);
    forall m | 0 <= m < |coefs|
      ensures |coefs[m]| == 64
      ensures BandDecoder.Refining(Zigzag(coefs[m], order), Zigzag(coefs[m], order), vs[m], BandOf(x), x.Ss)
    {
      var c, b := j.slots.comps[0], j.slots.at[m][0];
      assert b < |image[c]| && b in actual[c];
      assert HasComponent(x, c) by { assert x.component_index[0] == c; }
      HuffmanScansFit(script, x, n, c, Zigzag(image[c][b], order), BandOf(x), []);
    }
  }

  /** An AC scan, statistics, tables, output and decoding. */
  method CodeAc(j: Job, x: Scan, image: Image, before: Image, order: seq<nat>, ghost script: seq<Scan>, ghost n: nat,
                ghost actual: seq<set<nat>>)
    returns (inRange: bool, ok: bool, result: seq<seq<seq<int>>>, ghost size: seq<nat>)
    requires Entries(script) && |x.component_index| == MAX_COMPS_IN_SCAN && StepsOk(script, n) && StepOk(script, x, n)
    requires KnownSoFar(script, image, actual, order, before) && Codes(j, x, image, actual) && x.Ss > 0
    requires IsZigzag(order)
    requires Counted(j, x, image, actual, order) && Entries(script + [x])
    ensures inRange <==> Codable(j, x, image, actual, order)
    ensures inRange && !ok ==> TooLong(j, x, image, actual, order, size)
    ensures inRange && ok ==> AllKnown(script + [x], j.slots, image, actual, order, result)
  {
    hide BandScanDecoder.Refinable, BandScanDecoder.Refined, BandScan.AllExpressible, BandScan.ScanTokens, IsOrder;
    hide Serves;
    hide HuffmanGenerator.Optimal, HuffmanTree.Sum, Counts, StepsOk, StepOk, AllKnown, Placed, KnownSoFar;
    AcExpected(script, x, n, j, image, actual, order, before);
    KnownShape(script, image, actual, order, before);
    FetchedBlocks(j, x, image, actual);
    var blocks;
    var all, coefs := Column(Fetch(image, j.slots)), Column(Fetch(before, j.slots));
    inRange, ok, blocks, size := BandRoundTrip.CodeAndDecode(all, coefs, order, BandOf(x), j.interval,
      j.dest, j.marker, j.tail, j.delivered);
    result := seq(|blocks|, m requires 0 <= m < |blocks| => [blocks[m]]);
    if inRange && ok {
      AcKnown(script, x, n, j, image, actual, order, before, blocks, result);
    }
  }

  lemma KnownShape(script: seq<Scan>, image: Image, actual: seq<set<nat>>, order: seq<nat>, now: Image)
    requires Entries(script) && KnownSoFar(script, image, actual, order, now)
    ensures IsImage(image) && IsImage(now) && SameShape(image, now)
  {
    hide IsOrder, Zigzag;
  }

  lemma AcKnown(script: seq<Scan>, x: Scan, n: nat, j: Job, image: Image, actual: seq<set<nat>>, order: seq<nat>,
                before: Image, blocks: seq<seq<int>>, result: seq<seq<seq<int>>>)
    requires Entries(script) && |x.component_index| == MAX_COMPS_IN_SCAN && StepsOk(script, n) && StepOk(script, x, n)
    requires KnownSoFar(script, image, actual, order, before) && Codes(j, x, image, actual) && x.Ss > 0
    requires Entries(script + [x])
    requires Placed(j.slots, before)
    requires (forall m :: 0 <= m < |Fetch(before, j.slots)| ==> |Fetch(before, j.slots)[m]| == 1)
    requires (forall m :: 0 <= m < |Fetch(image, j.slots)| ==> |Fetch(image, j.slots)[m]| == 1)
    requires BandScan.NaturalBlocks(Column(Fetch(image, j.slots))) && |blocks| == |j.slots.at| == |result|
    requires BandScanDecoder.Refined(Column(Fetch(before, j.slots)), blocks,
                                     BandScan.Zigzags(Column(Fetch(image, j.slots)), order), order, BandOf(x))
    requires forall m :: 0 <= m < |result| ==> result[m] == [blocks[m]]
    ensures AllKnown(script + [x], j.slots, image, actual, order, result)
  {
    hide StepsOk, StepOk, Zigzag, IsOrder, DecodedBy, InSlot, BandDecoder.Refining;
    var coefs, vs := Column(Fetch(before, j.slots)), BandScan.Zigzags(Column(Fetch(image, j.slots)), order);
    forall m, i | 0 <= m < |result| && 0 <= i < |j.slots.member|
      ensures SlotKnown(script + [x], j.slots, image, actual, order, result, m, i)
    {
      assert i == 0 && j.slots.member[0] == 0;
      var c, b := j.slots.comps[0], j.slots.at[m][0];
      assert b < |image[c]| && b in actual[c];
      assert HasComponent(x, c) by { assert x.component_index[0] == c; }
      assert coefs[m] == before[c][b];
      HuffmanScansFit(script, x, n, c, Zigzag(image[c][b], order), BandOf(x), Zigzag(blocks[m], order));
    }
  }

  // Scripts ----------------------------------------------------------------------------------------

  /** Every scan of an acceptable script has its job. */
  ghost predicate AreJobs(jobs: seq<Job>, script: seq<Scan>, n: nat, image: Image, actual: seq<set<nat>>,
                          order: seq<nat>) {
    && Entries(script) && StepsOk(script, n) && IsImage(image) && IsZigzag(order) && |jobs| == |script|
    && forall k :: 0 <= k < |jobs| ==>
         Codes(jobs[k], script[k], image, actual) && Counted(jobs[k], script[k], image, actual, order)
  }

  /** One scan. */
  method CodeOne(j: Job, before: Image, image: Image, order: seq<nat>, script: seq<Scan>, k: nat, ghost n: nat,
                 ghost actual: seq<set<nat>>)
    returns (inRange: bool, ok: bool, after: Image, ghost size: seq<nat>)
    requires Entries(script) && StepsOk(script, n) && k < |script| && IsZigzag(order) && IsImage(image)
    requires KnownSoFar(script[..k], image, actual, order, before) && Codes(j, script[k], image, actual)
    requires Counted(j, script[k], image, actual, order)
    ensures inRange <==> Codable(j, script[k], image, actual, order)
    ensures inRange && !ok ==> TooLong(j, script[k], image, actual, order, size)
    ensures inRange && ok ==> KnownSoFar(script[..k + 1], image, actual, order, after)
  {
    hide StepsOk, StepOk, Counted, Codable, TooLong, KnownSoFar, AllKnown, Stored, IsImage, DcDecoded, Placed, IsOrder;
    var x := script[k];
    StepsPrefix(script, n, k);
    KnownShape(script[..k], image, actual, order, before);
    StillPlaced(j.slots, image, before);
    var result;
    after := before;
    if x.Ss == 0 {
      inRange, ok, result, size := CodeDc(j, x, image, before, order, actual);
      if inRange && ok {
        DcKnown(script[..k], x, n, j, image, actual, order, before, result);
      }
    } else {
      inRange, ok, result, size := CodeAc(j, x, image, before, order, script[..k], n, actual);
    }
    if inRange && ok {
      ResultShape(script[..k + 1], j.slots, image, actual, order, result);
      after := Placement.Store(before, j.slots, result);
      OneScanFurther(script[..k], x, j.slots, image, actual, order, before, result, after);
    }
  }

  lemma ResultShape(script: seq<Scan>, p: Slots, image: Image, actual: seq<set<nat>>, order: seq<nat>,
                    result: seq<seq<seq<int>>>)
    requires Entries(script) && AllKnown(script, p, image, actual, order, result)
    ensures |result| == |p.at| && forall m :: 0 <= m < |result| ==> |result[m]| == |p.member|
    ensures forall m, i :: 0 <= m < |result| && 0 <= i < |p.member| ==> |result[m][i]| == 64
  {
    hide Placed, IsOrder, Zigzag, DecodedBy;
    forall m, i | 0 <= m < |result| && 0 <= i < |p.member| ensures |result[m][i]| == 64 {
      assert SlotKnown(script, p, image, actual, order, result, m, i);
    }
  }

  /** The round trip of a whole script: whatever an acceptable script, the layout of its scans, restart
      intervals, bytes around them and portions of input, decoding scan after scan from cleared blocks leaves
      in every real block exactly what the script has sent of it. It stops only at a scan with a value out
      of range, or with symbols whose optimal code has a length over 32. */
  method CodeAndDecodeScript(jobs: seq<Job>, image: Image, order: seq<nat>, script: seq<Scan>, ghost n: nat,
                             ghost actual: seq<set<nat>>)
    returns (inRange: bool, ok: bool, now: Image, done: nat, ghost size: seq<nat>)
    requires AreJobs(jobs, script, n, image, actual, order) && |actual| == |image|
    ensures done <= |jobs| && forall k :: 0 <= k < done ==> Codable(jobs[k], script[k], image, actual, order)
    ensures !inRange ==> done < |jobs| && !Codable(jobs[done], script[done], image, actual, order)
    ensures inRange && !ok ==> done < |jobs| && TooLong(jobs[done], script[done], image, actual, order, size)
    ensures inRange && ok ==> done == |jobs| && KnownSoFar(script, image, actual, order, now)
    ensures inRange && ok && Exact(script, |image|) ==> SameBlocks(image, now, actual, order)
  {
    hide StepsOk, Codes, Counted, Codable, TooLong, KnownSoFar, IsOrder, Exact, SameBlocks;
    inRange, ok, done, size := true, true, 0, [];
    now := seq(|image|, c requires 0 <= c < |image| => seq(|image[c]|, _ => seq(64, _ => 0)));
    NothingKnown(image, actual, order, now);
    assert script[..0] == [];
    while done < |jobs|
      invariant done <= |jobs| && inRange && ok && KnownSoFar(script[..done], image, actual, order, now)
      invariant forall k :: 0 <= k < done ==> Codable(jobs[k], script[k], image, actual, order)
    {
      inRange, ok, now, size := CodeOne(jobs[done], now, image, order, script, done, n, actual);
      if !inRange || !ok {
        return;
      }
      done := done + 1;
    }
    assert script[..done] == script;
    if Exact(script, |image|) {
      ExactIsWhole(script, image, actual, order, now);
    }
  }
}
