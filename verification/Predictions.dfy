/** DC prediction: whatever the MCUs look like, a block is predicted from the block of its component coded
    before it, and the first one of a segment from zero. */
module Predictions {
  import opened Values
  import opened ArithTape
  import ArithScan
  import SequentialPlan

  /** The last of the first n blocks of an MCU to be of component ci, or -1. */
  function Previous(member: seq<nat>, ci: nat, n: nat): (k: int)
    requires n <= |member|
    ensures -1 <= k < n && (k >= 0 ==> member[k] == ci) && forall i :: k < i < n ==> member[i] != ci
  {
    if n == 0 then -1 else if member[n - 1] == ci then n - 1 else Previous(member, ci, n - 1)
  }

  // Arithmetic coding --------------------------------------------------------------------------

  /** Within an MCU, the prediction and the conditioning category are what the component's latest block left. */
  lemma {:induction false} ArithInMcu(g: ArithScan.Config, mcu: seq<seq<int>>, n: nat, s: ArithScan.State, ci: nat)
    requires ArithScan.IsConfig(g) && ArithScan.IsState(g, s) && ArithScan.IsMcu(g, mcu) && n <= |mcu| && ci < |g.dc|
    requires g.kind.Sequential? || g.kind.DcFirst?
    ensures var k := Previous(g.member, ci, n);
      var r := ArithScan.StateAfter(g, mcu, n, s);
      if k < 0 then r.last[ci] == s.last[ci] && r.context[ci] == s.context[ci]
      else
        && r.last[ci] == ArithScan.DcValue(g, mcu[k])
        && r.context[ci] == NextContext(r.last[ci] - ArithScan.StateAfter(g, mcu, k, s).last[ci],
                                        g.lower[g.dc[ci]], g.upper[g.dc[ci]])
  {
    hide NextContext, ArithScan.DcValue;
    if n > 0 {
      ArithInMcu(g, mcu, n - 1, s, ci);
    }
  }

  lemma SegmentStart(g: ArithScan.Config, mcus: seq<seq<seq<int>>>, m: nat)
    requires ArithScan.IsConfig(g) && ArithScan.AreMcus(g, mcus) && m < |mcus|
    ensures ArithScan.AreMcus(g, mcus[..m])
    ensures ArithScan.SegmentState(g, mcus[..m]) ==
      if m == 0 then ArithScan.Initial(g)
      else ArithScan.StateAfter(g, mcus[m - 1], |mcus[m - 1]|, ArithScan.SegmentState(g, mcus[..m - 1]))
  {
    hide ArithScan.StateAfter, ArithScan.IsConfig;
    if m > 0 {
      assert mcus[..m][..m - 1] == mcus[..m - 1];
    }
  }

  /** Before block n of MCU m of a segment. */
  lemma ArithPrediction(g: ArithScan.Config, mcus: seq<seq<seq<int>>>, m: nat, n: nat)
    requires ArithScan.IsConfig(g) && ArithScan.AreMcus(g, mcus) && m < |mcus| && n < |g.member|
    requires g.kind.Sequential? || g.kind.DcFirst?
    ensures ArithScan.AreMcus(g, mcus[..m])
    ensures var ci := g.member[n];
      var t := ArithScan.StateAfter(g, mcus[m], n, ArithScan.SegmentState(g, mcus[..m]));
      var k, before := Previous(g.member, ci, n), Previous(g.member, ci, |g.member|);
      && before >= n
      && (if k >= 0 then t.last[ci] == ArithScan.DcValue(g, mcus[m][k])
          else if m > 0 then t.last[ci] == ArithScan.DcValue(g, mcus[m - 1][before])
          else t.last[ci] == 0 && t.context[ci] == 0)
  {
    hide ArithScan.DcValue, ArithScan.StateAfter, ArithScan.SegmentState, NextContext, Previous;
    SegmentStart(g, mcus, m);
    var ci := g.member[n];
    ArithInMcu(g, mcus[m], n, ArithScan.SegmentState(g, mcus[..m]), ci);
    if m > 0 {
      ArithInMcu(g, mcus[m - 1], |g.member|, ArithScan.SegmentState(g, mcus[..m - 1]), ci);
    }
  }

  // Huffman coding ------------------------------------------------------------------------------

  /** The DC value a scan codes. */
  function Coded(f: SequentialPlan.Form, v: seq<int>): int
    requires |v| == 64 && !f.NextDc?
  {
    if f.Whole? then v[0] else Floor(v[0], f.al)
  }

  lemma {:induction false} HuffmanInMcu(y: SequentialPlan.Layout, mcu: seq<seq<int>>, n: nat, last: seq<int>,
                                        f: SequentialPlan.Form, ci: nat)
    requires SequentialPlan.IsLayout(y) && SequentialPlan.IsMcu(y, mcu) && n <= |mcu| && |last| == |y.dc|
    requires ci < |y.dc| && !f.NextDc?
    ensures var k := Previous(y.member, ci, n);
      SequentialPlan.LastsAfter(y, mcu, n, last, f)[ci] == if k < 0 then last[ci] else Coded(f, mcu[k])
  {
    if n > 0 {
      HuffmanInMcu(y, mcu, n - 1, last, f, ci);
    }
  }

  /** Before block n of MCU m of a segment. */
  lemma HuffmanPrediction(y: SequentialPlan.Layout, mcus: seq<seq<seq<int>>>, m: nat, n: nat, f: SequentialPlan.Form)
    requires SequentialPlan.IsLayout(y) && SequentialPlan.AreMcus(y, mcus) && m < |mcus| && n < |y.member|
    requires !f.NextDc?
    ensures SequentialPlan.AreMcus(y, mcus[..m])
    ensures var ci := y.member[n];
      var k, before := Previous(y.member, ci, n), Previous(y.member, ci, |y.member|);
      && before >= n
      && SequentialPlan.LastsAfter(y, mcus[m], n, SequentialPlan.Lasts(y, mcus[..m], f), f)[ci] ==
           if k >= 0 then Coded(f, mcus[m][k]) else if m > 0 then Coded(f, mcus[m - 1][before]) else 0
  {
    hide SequentialPlan.LastsAfter, Coded;
    var ci := y.member[n];
    HuffmanInMcu(y, mcus[m], n, SequentialPlan.Lasts(y, mcus[..m], f), f, ci);
    if m > 0 {
      assert mcus[..m][..m - 1] == mcus[..m - 1];
      HuffmanInMcu(y, mcus[m - 1], |y.member|, SequentialPlan.Lasts(y, mcus[..m - 1], f), f, ci);
    }
  }
}
