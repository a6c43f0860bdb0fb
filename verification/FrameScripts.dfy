/** Whole images: from the real blocks of a frame, through every scan of an acceptable progressive script, to the real
    blocks of the decoded arrays. */
module FrameScripts {
  import opened Numbers
  import opened McuLayout
  import opened McuCoverage
  import opened ScanScript
  import opened ScriptDecoding
  import opened SimpleProgression
  import opened ScriptImage
  import opened Placement
  import opened BandEncoder
  import opened FrameSlots
  import ArithScan
  import ArithScript
  import HuffmanScript
  import SequentialPlan
  import SequentialEncoder

  /** The script is acceptable for the frame's components, and sc[k] are the components of scan k. */
  ghost predicate ScriptFits(fr: Frame, script: seq<Scan>, sc: seq<seq<nat>>) {
    && Good(fr) && Entries(script) && StepsOk(script, |fr.comps|) && |sc| == |script|
    && forall k :: 0 <= k < |script| ==> GoodScan(fr, sc[k]) && ScanOf(script[k], sc[k])
  }

  lemma ScanServed(fr: Frame, script: seq<Scan>, sc: seq<seq<nat>>, k: nat)
    requires ScriptFits(fr, script, sc) && k < |script|
    ensures Serves(SlotsOf(fr, sc[k]), script[k], Arrays(fr), Actual(fr)) && RangesOk(script[k])
  {
    hide Good, SlotsOf, Serves;
    assert StepOk(script[..k], script[k], |fr.comps|);
    SlotsServe(fr, sc[k], script[k]);
  }

  /** Every real block of the frame is in the image as far as the script has sent it. */
  ghost predicate FrameKnown(fr: Frame, script: seq<Scan>, order: seq<nat>, now: Image)
    requires Good(fr) && Entries(script)
  {
    && IsOrder(order) && IsImage(now) && |now| == |fr.comps|
    && forall ci, r, x {:trigger fr.comps[ci].blocks(r, x)} ::
         0 <= ci < |fr.comps| && 0 <= r < fr.comps[ci].height && 0 <= x < fr.comps[ci].width ==>
           BlockKnown(fr, script, order, now, ci, r, x)
  }

  ghost predicate BlockKnown(fr: Frame, script: seq<Scan>, order: seq<nat>, now: Image, ci: nat, r: int, x: int)
    requires Entries(script) && IsOrder(order) && IsImage(now) && ci < |fr.comps| && ci < |now|
  {
    var c := fr.comps[ci];
    var b := BlockNumber(fr, c, r, x);
    0 <= b < |now[ci]| && Zigzag(now[ci][b], order) == DecodedBy(script, ci, Zigzag(c.blocks(r, x), order))
  }

  lemma RealBlockKnown(fr: Frame, script: seq<Scan>, order: seq<nat>, now: Image, ci: nat, r: nat, x: nat)
    requires Good(fr) && Entries(script) && KnownSoFar(script, Arrays(fr), Actual(fr), order, now)
    requires ci < |fr.comps| && r < fr.comps[ci].height && x < fr.comps[ci].width
    ensures BlockKnown(fr, script, order, now, ci, r, x)
  {
    hide DecodedBy, Zigzag, Padded, IsReal, Stride;
    var c := fr.comps[ci];
    StridePositive(fr, c);
    NumberIs(fr, c, r, x);
    var b := BlockNumber(fr, c, r, x);
    assert IsReal(fr, c, b) by { RealNumber(fr, c, r, x); }
    IsRealSize(fr, c, b);
    RealBlock(c, r, x);
    assert b in Actual(fr)[ci];
  }

  lemma RealNumber(fr: Frame, c: Component, r: nat, x: nat)
    requires GoodComponent(fr, c) && fr.across > 0 && r < c.height && x < c.width
    ensures IsReal(fr, c, BlockNumber(fr, c, r, x))
  {
    StridePositive(fr, c);
    NumberIs(fr, c, r, x);
  }

  lemma KnownIsFrameKnown(fr: Frame, script: seq<Scan>, order: seq<nat>, now: Image)
    requires Good(fr) && Entries(script) && KnownSoFar(script, Arrays(fr), Actual(fr), order, now)
    ensures FrameKnown(fr, script, order, now)
  {
    hide BlockKnown, KnownSoFar;
    KnownShape(script, Arrays(fr), Actual(fr), order, now);
    forall ci, r, x | 0 <= ci < |fr.comps| && 0 <= r < fr.comps[ci].height && 0 <= x < fr.comps[ci].width
      ensures BlockKnown(fr, script, order, now, ci, r, x)
    {
      RealBlockKnown(fr, script, order, now, ci, r, x);
    }
  }

  lemma KnownShape(script: seq<Scan>, image: Image, actual: seq<set<nat>>, order: seq<nat>, now: Image)
    requires Entries(script) && KnownSoFar(script, image, actual, order, now)
    ensures IsOrder(order) && IsImage(now) && |now| == |image|
  {
  }

  // Arithmetic coding ---------------------------------------------------------------------------------

  /** The job codes scan x, of components sc, slot by slot. */
  ghost predicate ArithJob(fr: Frame, j: ArithScript.Job, x: Scan, sc: seq<nat>)
    requires GoodScan(fr, sc)
  {
    && j.slots == SlotsOf(fr, sc) && ArithScan.IsConfig(j.g) && ArithRoutine(j.g, x) && 0 < j.marker < 0xFF
    && j.g.member == j.slots.member && |j.g.dc| == |sc|
  }

  lemma ArithJobCodes(fr: Frame, j: ArithScript.Job, script: seq<Scan>, sc: seq<seq<nat>>, k: nat)
    requires ScriptFits(fr, script, sc) && k < |script| && ArithJob(fr, j, script[k], sc[k])
    ensures ArithScript.Codes(j, script[k], Arrays(fr), Actual(fr))
  {
    hide Serves, SlotsOf, Good;
    ScanServed(fr, script, sc, k);
    SlotsComponents(fr, sc[k]);
  }

  lemma SlotsComponents(fr: Frame, sc: seq<nat>)
    requires GoodScan(fr, sc)
    ensures SlotsOf(fr, sc).comps == sc
  {
  }

  /** Compression of the frame's coefficient arrays by the arithmetic coder into one file, and decompression of that
      file: every real block ends as far known as the script has sent it, and with a script that sends everything,
      back. */
  method ArithImage(fr: Frame, jobs: seq<ArithScript.Job>, image: Image, order: seq<nat>, ghost script: seq<Scan>,
                    ghost sc: seq<seq<nat>>)
    returns (now: Image)
    requires ScriptFits(fr, script, sc) && SequentialEncoder.IsZigzag(order) && image == Arrays(fr)
    requires |jobs| == |script| && forall k :: 0 <= k < |jobs| ==>
      && ArithJob(fr, jobs[k], script[k], sc[k])
      && (ArithScript.Codes(jobs[k], script[k], image, Actual(fr)) ==>
            ArithScript.Codable(jobs[k], script[k], image, Actual(fr), order))
    ensures FrameKnown(fr, script, order, now)
  {
    hide ArithScript.Codes, ArithScript.Codable, StepsOk, FrameKnown, Good, SequentialEncoder.IsZigzag;
    forall k | 0 <= k < |jobs| ensures ArithScript.Codes(jobs[k], script[k], image, Actual(fr)) {
      ArithJobCodes(fr, jobs[k], script, sc, k);
    }
    var ok;
    ok, now := ArithScript.CodeAndDecodeScript(jobs, image, order, script, |fr.comps|, Actual(fr));
    KnownIsFrameKnown(fr, script, order, now);
  }

  // Huffman coding --------------------------------------------------------------------------------------

  ghost predicate HuffmanJob(fr: Frame, j: HuffmanScript.Job, sc: seq<nat>)
    requires GoodScan(fr, sc)
  {
    && j.slots == SlotsOf(fr, sc) && SequentialPlan.IsLayout(j.y) && 0 < j.marker < 0xFF && j.delivered <= |j.dest|
    && j.y.member == j.slots.member && |j.y.dc| == |sc|
  }

  lemma HuffmanJobCodes(fr: Frame, j: HuffmanScript.Job, script: seq<Scan>, sc: seq<seq<nat>>, k: nat)
    requires ScriptFits(fr, script, sc) && k < |script| && HuffmanJob(fr, j, sc[k])
    ensures HuffmanScript.Codes(j, script[k], Arrays(fr), Actual(fr))
  {
    hide Serves, SlotsOf, Good;
    ScanServed(fr, script, sc, k);
    SlotsComponents(fr, sc[k]);
    SlotsCovered(fr, sc[k]);
    SingleMember(fr, sc[k]);
  }

  /** Every MCU has a block of each component, and there is an MCU. */
  lemma SlotsCovered(fr: Frame, sc: seq<nat>)
    requires GoodScan(fr, sc)
    ensures |SlotsOf(fr, sc).at| > 0 && forall ci: nat :: ci < |sc| ==> ci in SlotsOf(fr, sc).member
  {
    var c, s := fr.comps[sc[0]], SlotsOf(fr, sc);
    assert GoodComponent(fr, c);
    if |sc| == 1 {
      WidthPositive(fr, c);
      MulLe(1, c.height, c.width);
      assert s.member[0] == 0;
    } else {
      MulLe(1, fr.total, fr.across);
      forall ci: nat | ci < |sc| ensures ci in s.member {
        MemberAt(fr, sc, ci);
      }
    }
  }

  lemma MemberAt(fr: Frame, sc: seq<nat>, ci: nat)
    requires GoodScan(fr, sc) && ci < |sc|
    ensures ci in MixedSlots(fr, sc).member
  {
    var c := fr.comps[sc[ci]];
    assert GoodComponent(fr, c);
    MulLe(1, c.h, c.v);
    Grows(fr, sc, 0, ci);
    hide Good;
    ComponentIs(fr, sc, BlocksIn(fr, sc, ci), ci, |sc|);
    assert MixedSlots(fr, sc).member[BlocksIn(fr, sc, ci)] == ci;
  }

  lemma SingleMember(fr: Frame, sc: seq<nat>)
    requires GoodScan(fr, sc)
    ensures |sc| == 1 ==> SlotsOf(fr, sc).member == [0]
  {
  }

  /** The same by the Huffman coder, every scan with tables from its own statistics and its input in any portions. It
      stops only at a scan with a value out of range, or whose optimal code is too long. */
  method HuffmanImage(fr: Frame, jobs: seq<HuffmanScript.Job>, image: Image, order: seq<nat>, script: seq<Scan>,
                      ghost sc: seq<seq<nat>>)
    returns (inRange: bool, ok: bool, now: Image, done: nat, ghost size: seq<nat>)
    requires ScriptFits(fr, script, sc) && SequentialEncoder.IsZigzag(order) && image == Arrays(fr)
    requires |jobs| == |script| && forall k :: 0 <= k < |jobs| ==>
      && HuffmanJob(fr, jobs[k], sc[k])
      && (HuffmanScript.Codes(jobs[k], script[k], image, Actual(fr)) ==>
            HuffmanScript.Counted(jobs[k], script[k], image, Actual(fr), order))
    ensures done <= |jobs| && forall k :: 0 <= k < |jobs| ==> HuffmanScript.Codes(jobs[k], script[k], image, Actual(fr))
    ensures !inRange ==>
      done < |jobs| && !HuffmanScript.Codable(jobs[done], script[done], image, Actual(fr), order)
    ensures inRange && !ok ==>
      done < |jobs| && HuffmanScript.TooLong(jobs[done], script[done], image, Actual(fr), order, size)
    ensures inRange && ok ==> FrameKnown(fr, script, order, now)
  {
    hide HuffmanScript.Codes, HuffmanScript.Codable, HuffmanScript.Counted, HuffmanScript.TooLong, StepsOk, FrameKnown;
    hide Good, SequentialEncoder.IsZigzag;
    forall k | 0 <= k < |jobs| ensures HuffmanScript.Codes(jobs[k], script[k], image, Actual(fr)) {
      HuffmanJobCodes(fr, jobs[k], script, sc, k);
    }
    inRange, ok, now, done, size :=
      HuffmanScript.CodeAndDecodeScript(jobs, image, order, script, |fr.comps|, Actual(fr));
    if inRange && ok {
      KnownIsFrameKnown(fr, script, order, now);
    }
  }

  /** With a script that sends everything, the blocks are back. */
  lemma WholeFrame(fr: Frame, script: seq<Scan>, order: seq<nat>, now: Image, ci: nat, r: nat, x: nat)
    requires Good(fr) && Entries(script) && FrameKnown(fr, script, order, now) && Exact(script, |fr.comps|)
    requires ci < |fr.comps| && r < fr.comps[ci].height && x < fr.comps[ci].width
    ensures var b := BlockNumber(fr, fr.comps[ci], r, x);
      0 <= b < |now[ci]| && Zigzag(now[ci][b], order) == Zigzag(fr.comps[ci].blocks(r, x), order)
  {
    hide Zigzag, Composed;
    var block := fr.comps[ci].blocks(r, x);
    assert BlockKnown(fr, script, order, now, ci, r, x);
    var v := Zigzag(block, order);
    assert DecodedBy(script, ci, v) == v;
  }
}
