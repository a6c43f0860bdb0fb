/** Arithmetic-coded scans of all five kinds: what each MCU contributes, and what the encoder's
    MCU routines code. */
module ArithScan {
  import opened Numbers
  import opened IntervalCoder
  import opened ByteStuffing
  import opened Values
  import opened BandPlan
  import opened BandEncoder
  import opened SequentialEncoder
  import opened ArithTape
  import opened ArithCoefEncoder
  import opened Restarts
  import opened Segments
  import ArithEncoder

  datatype Kind = Sequential | DcFirst | AcFirst | DcRefine | AcRefine

  /** A scan: its kind and band, the component of each block of an MCU, the components' tables,
      and the conditioning parameters of each table. */
  datatype Config = Config(kind: Kind, ss: nat, se: nat, al: nat, member: seq<nat>, dc: seq<nat>, ac: seq<nat>,
                           lower: seq<nat>, upper: seq<nat>, kx: seq<int>)

  const NUM_ARITH_TBLS := 16

  ghost predicate IsConfig(g: Config) {
    && |g.dc| == |g.ac| && (forall i :: 0 <= i < |g.member| ==> g.member[i] < |g.dc|)
    && (forall c :: 0 <= c < |g.dc| ==> g.dc[c] < NUM_ARITH_TBLS && g.ac[c] < NUM_ARITH_TBLS)
    && |g.lower| == |g.upper| == |g.kx| == NUM_ARITH_TBLS && g.se < 64
    && match g.kind
       case Sequential => g.ss == 0 && g.al == 0
       case DcFirst => g.ss == g.se == 0
       case DcRefine => g.ss == g.se == 0
       case AcFirst => 1 <= g.ss <= g.se
       case AcRefine => 1 <= g.ss <= g.se
  }

  /** DC predictions and conditioning categories by component. */
  datatype State = State(last: seq<int>, context: seq<nat>)

  ghost predicate IsState(g: Config, s: State) {
    |s.last| == |s.context| == |g.dc| && forall c :: 0 <= c < |s.context| ==> s.context[c] <= 16
  }

  function Initial(g: Config): State {
    State(seq(|g.dc|, _ => 0), seq(|g.dc|, _ => 0))
  }

  /** The DC value the scan codes. */
  function DcValue(g: Config, v: seq<int>): int
    requires |v| == 64
  {
    if g.kind.Sequential? then v[0] else Floor(v[0], g.al)
  }

  lemma EndNonzero(v: seq<int>, al: nat, se: nat)
    requires se < |v|
    ensures var ke := EndIndex(Transformed(v, al), se); ke > 0 ==> Magnitudes(v, al)[ke] != 0
  {
    EndMagnitude(v, al, se);
  }

  /** The decisions for one block. */
  ghost function BlockTape(g: Config, ci: nat, v: seq<int>, s: State): seq<Decision>
    requires IsConfig(g) && IsState(g, s) && ci < |g.dc| && |v| == 64
  {
    var d, a := g.dc[ci], g.ac[ci];
    match g.kind
    case Sequential =>
      DcTape(d, s.context[ci], v[0] - s.last[ci]) +
      if g.se == 0 then [] else AcTape(a, Transformed(v, 0), 0, EndIndex(Transformed(v, 0), g.se), g.kx[a], g.se)
    case DcFirst => DcTape(d, s.context[ci], Floor(v[0], g.al) - s.last[ci])
    case AcFirst => AcTape(a, Transformed(v, g.al), g.ss - 1, EndIndex(Transformed(v, g.al), g.se), g.kx[a], g.se)
    case DcRefine => [Decision(Fixed, Floor(v[0], g.al) % 2)]
    case AcRefine =>
      var ke := EndIndex(Transformed(v, g.al), g.se);
      EndNonzero(v, g.al, g.se);
      RefineTape(a, v, Magnitudes(v, g.al), g.ss - 1, ke, EndIndex(Transformed(v, g.al + 1), ke), g.se)
  }

  ghost function NextState(g: Config, ci: nat, v: seq<int>, s: State): (r: State)
    requires IsConfig(g) && IsState(g, s) && ci < |g.dc| && |v| == 64
    ensures IsState(g, r)
  {
    if !(g.kind.Sequential? || g.kind.DcFirst?) then s
    else
      var m, t := DcValue(g, v), g.dc[ci];
      State(s.last[ci := m], s.context[ci := NextContext(m - s.last[ci], g.lower[t], g.upper[t])])
  }

  // MCUs and segments ----------------------------------------------------------------------------

  ghost predicate IsMcu(g: Config, mcu: seq<seq<int>>) {
    |mcu| == |g.member| && forall i :: 0 <= i < |mcu| ==> |mcu[i]| == 64
  }

  ghost predicate AreMcus(g: Config, mcus: seq<seq<seq<int>>>) {
    forall i :: 0 <= i < |mcus| ==> IsMcu(g, mcus[i])
  }

  ghost function StateAfter(g: Config, mcu: seq<seq<int>>, n: nat, s: State): (r: State)
    requires IsConfig(g) && IsState(g, s) && IsMcu(g, mcu) && n <= |mcu|
    ensures IsState(g, r)
  {
    if n == 0 then s else NextState(g, g.member[n - 1], mcu[n - 1], StateAfter(g, mcu, n - 1, s))
  }

  ghost function McuTape(g: Config, mcu: seq<seq<int>>, n: nat, s: State): seq<Decision>
    requires IsConfig(g) && IsState(g, s) && IsMcu(g, mcu) && n <= |mcu|
  {
    if n == 0 then []
    else McuTape(g, mcu, n - 1, s) + BlockTape(g, g.member[n - 1], mcu[n - 1], StateAfter(g, mcu, n - 1, s))
  }

  ghost function SegmentState(g: Config, mcus: seq<seq<seq<int>>>): (r: State)
    requires IsConfig(g) && AreMcus(g, mcus)
    ensures IsState(g, r)
  {
    var n := |mcus| - 1;
    if n < 0 then Initial(g) else StateAfter(g, mcus[n], |mcus[n]|, SegmentState(g, mcus[..n]))
  }

  ghost function SegmentTape(g: Config, mcus: seq<seq<seq<int>>>): seq<Decision>
    requires IsConfig(g) && AreMcus(g, mcus)
  {
    var n := |mcus| - 1;
    if n < 0 then [] else SegmentTape(g, mcus[..n]) + McuTape(g, mcus[n], |mcus[n]|, SegmentState(g, mcus[..n]))
  }

  lemma SegmentSnoc(g: Config, cur: seq<seq<seq<int>>>, mcu: seq<seq<int>>)
    requires IsConfig(g) && AreMcus(g, cur) && IsMcu(g, mcu)
    ensures AreMcus(g, cur + [mcu])
    ensures SegmentTape(g, cur + [mcu]) == SegmentTape(g, cur) + McuTape(g, mcu, |mcu|, SegmentState(g, cur))
    ensures SegmentState(g, cur + [mcu]) == StateAfter(g, mcu, |mcu|, SegmentState(g, cur))
  {
    hide McuTape, StateAfter, IsConfig;
    assert (cur + [mcu])[..|cur|] == cur;
  }

  // Encoding --------------------------------------------------------------------------------------

  /** One block, as the scan's MCU routine codes it. */
  method EncodeBlock(e: ArithEncoder.Encoder, g: Config, ci: nat, block: seq<int>, order: seq<nat>, s: State)
    returns (next: State)
    requires e.Valid() && IsConfig(g) && IsState(g, s) && ci < |g.dc| && |block| == 64 && IsZigzag(order)
    modifies e
    ensures e.Valid() && e.prior == old(e.prior)
    ensures var v := Zigzag(block, order);
      e.coded == old(e.coded) + BlockTape(g, ci, v, s) && next == NextState(g, ci, v, s)
  {
    hide ArithEncoder.Encoder.Valid, DcTape, AcTape, RefineTape, EndIndex, Zigzag, Transformed, NextContext, Pow2;
    hide Magnitudes;
    ghost var v := Zigzag(block, order);
    DcFirstIs(block, order);
    next := s;
    var d, a := g.dc[ci], g.ac[ci];
    match g.kind {
      case Sequential =>
        var context := EncodeDc(e, d, s.context[ci], block[0] - s.last[ci], g.lower[d], g.upper[d]);
        next := State(s.last[ci := block[0]], s.context[ci := context]);
        if g.se > 0 {
          Chain(old(e.coded), DcTape(d, s.context[ci], v[0] - s.last[ci]),
                AcTape(a, Transformed(v, 0), 0, EndIndex(Transformed(v, 0), g.se), g.kx[a], g.se));
          ArithCoefEncoder.EncodeAc(e, a, block, order, 1, g.se, 0, g.kx[a]);
        }
      case DcFirst =>
        var m := block[0] / Pow2(g.al);
        var context := EncodeDc(e, d, s.context[ci], m - s.last[ci], g.lower[d], g.upper[d]);
        next := State(s.last[ci := m], s.context[ci := context]);
      case AcFirst =>
        ArithCoefEncoder.EncodeAc(e, a, block, order, g.ss, g.se, g.al, g.kx[a]);
      case DcRefine =>
        e.Encode(Fixed, block[0] / Pow2(g.al) % 2);
      case AcRefine =>
        EncodeAcRefine(e, a, block, order, g.ss, g.se, g.al);
    }
  }

  lemma DcFirstIs(block: seq<int>, order: seq<nat>)
    requires |block| == 64 && IsZigzag(order)
    ensures Zigzag(block, order)[0] == block[0]
  {
  }

  ghost function ZigzagMcu(mcu: seq<seq<int>>, order: seq<nat>): (r: seq<seq<int>>)
    requires IsZigzag(order) && forall i :: 0 <= i < |mcu| ==> |mcu[i]| == 64
    ensures |r| == |mcu| && forall i :: 0 <= i < |r| ==> r[i] == Zigzag(mcu[i], order) && |r[i]| == 64
  {
    seq(|mcu|, i requires 0 <= i < |mcu| => Zigzag(mcu[i], order))
  }

  lemma FirstBlock(g: Config, mcu: seq<seq<int>>, s: State)
    requires IsConfig(g) && IsState(g, s) && IsMcu(g, mcu)
    ensures StateAfter(g, mcu, 0, s) == s && McuTape(g, mcu, 0, s) == []
  {
  }

  lemma NextBlock(g: Config, mcu: seq<seq<int>>, n: nat, s: State)
    requires IsConfig(g) && IsState(g, s) && IsMcu(g, mcu) && n < |mcu|
    ensures var t := StateAfter(g, mcu, n, s);
      && StateAfter(g, mcu, n + 1, s) == NextState(g, g.member[n], mcu[n], t)
      && McuTape(g, mcu, n + 1, s) == McuTape(g, mcu, n, s) + BlockTape(g, g.member[n], mcu[n], t)
  {
    hide BlockTape, NextState;
  }

  /** The block loop of encode_mcu and its progressive variants. */
  method EncodeMcu(e: ArithEncoder.Encoder, g: Config, mcu: seq<seq<int>>, order: seq<nat>, s: State)
    returns (next: State)
    requires e.Valid() && IsConfig(g) && IsState(g, s) && IsMcu(g, mcu) && IsZigzag(order)
    modifies e
    ensures e.Valid() && e.prior == old(e.prior)
    ensures var v := ZigzagMcu(mcu, order);
      e.coded == old(e.coded) + McuTape(g, v, |v|, s) && next == StateAfter(g, v, |v|, s)
  {
    hide ArithEncoder.Encoder.Valid, BlockTape, IsState, Zigzag, IsOrder, StateAfter, McuTape;
    ghost var v := ZigzagMcu(mcu, order);
    next := s;
    FirstBlock(g, v, s);
    for blkn := 0 to |mcu|
      invariant e.Valid() && e.prior == old(e.prior) && next == StateAfter(g, v, blkn, s) && IsState(g, next)
      invariant e.coded == old(e.coded) + McuTape(g, v, blkn, s)
    {
      NextBlock(g, v, blkn, s);
      Chain(old(e.coded), McuTape(g, v, blkn, s), BlockTape(g, g.member[blkn], v[blkn], next));
      next := EncodeBlock(e, g, g.member[blkn], mcu[blkn], order, next);
    }
  }

  // Scans ------------------------------------------------------------------------------------------

  ghost predicate AreSegments(g: Config, groups: seq<seq<seq<seq<int>>>>) {
    forall i :: 0 <= i < |groups| ==> AreMcus(g, groups[i])
  }

  /** The bytes of a segment: a code for the interval of its decisions. */
  ghost predicate SegmentCoded(g: Config, group: seq<seq<seq<int>>>, code: seq<int>)
    requires IsConfig(g) && AreMcus(g, group)
  {
    IsBytes(code) && Binary(SegmentTape(g, group)) && Spells(code, Run(SegmentTape(g, group)).iv)
  }

  ghost predicate AllCoded(g: Config, groups: seq<seq<seq<seq<int>>>>, codes: seq<seq<int>>)
    requires IsConfig(g) && AreSegments(g, groups)
  {
    |codes| == |groups| && forall i :: 0 <= i < |codes| ==> SegmentCoded(g, groups[i], codes[i])
  }

  ghost predicate NaturalMcus(g: Config, mcus: seq<seq<seq<int>>>) {
    forall i :: 0 <= i < |mcus| ==> IsMcu(g, mcus[i])
  }

  ghost function ZigzagMcus(g: Config, mcus: seq<seq<seq<int>>>, order: seq<nat>): (vs: seq<seq<seq<int>>>)
    requires NaturalMcus(g, mcus) && IsZigzag(order)
    ensures |vs| == |mcus| && AreMcus(g, vs) && forall i :: 0 <= i < |vs| ==> vs[i] == ZigzagMcu(mcus[i], order)
  {
    seq(|mcus|, i requires 0 <= i < |mcus| => ZigzagMcu(mcus[i], order))
  }

  lemma SplitMcus(g: Config, vs: seq<seq<seq<int>>>, interval: nat)
    requires AreMcus(g, vs)
    ensures var s := SplitBy(vs, interval);
      AreSegments(g, s.groups) && AreMcus(g, s.cur) && AreSegments(g, SegmentsOf(vs, interval))
  {
    SplitAll(vs, interval, mcu => IsMcu(g, mcu));
  }

  /** Where the encoder stands: the finished segments are out, and the current one is under way. */
  ghost predicate Standing(e: ArithEncoder.Encoder, g: Config, dest: seq<int>, codes: seq<seq<int>>, state: State,
                           s: Split<seq<seq<int>>>)
    requires IsConfig(g)
    reads e
  {
    && AreSegments(g, s.groups) && AreMcus(g, s.cur) && AllCoded(g, s.groups, codes) && e.Valid()
    && e.prior == dest + RestartBytes(codes) && e.coded == SegmentTape(g, s.cur) && state == SegmentState(g, s.cur)
  }

  lemma CloseSegment(g: Config, groups: seq<seq<seq<seq<int>>>>, cur: seq<seq<seq<int>>>, codes: seq<seq<int>>,
                     code: seq<int>)
    requires IsConfig(g) && AreSegments(g, groups) && AreMcus(g, cur) && AllCoded(g, groups, codes)
    requires SegmentCoded(g, cur, code)
    ensures AreSegments(g, groups + [cur]) && AllCoded(g, groups + [cur], codes + [code])
  {
    hide SegmentCoded, IsConfig;
  }

  lemma StartSegment(g: Config)
    requires IsConfig(g)
    ensures AreMcus(g, []) && SegmentTape(g, []) == [] && SegmentState(g, []) == Initial(g)
  {
  }

  /** finish_pass on the scan's current segment. */
  method FinishSegment(e: ArithEncoder.Encoder, g: Config, ghost dest: seq<int>, ghost codes: seq<seq<int>>,
                       ghost state: State, ghost s: Split<seq<seq<int>>>)
    requires IsConfig(g) && Standing(e, g, dest, codes, state, s)
    modifies e
    ensures AreSegments(g, s.groups + [s.cur]) && AllCoded(g, s.groups + [s.cur], codes + [e.data])
    ensures e.out == ScanBytes(dest, codes, e.data)
  {
    hide SegmentTape, Run, Spells, RestartBytes, SegmentState, Stuff, IsConfig;
    e.Finish();
    CloseSegment(g, s.groups, s.cur, codes, e.data);
  }

  /** emit_restart: the segment is finished, and coder, statistics and predictions start anew. */
  method EmitRestart(e: ArithEncoder.Encoder, g: Config, num: nat, ghost dest: seq<int>, ghost codes: seq<seq<int>>,
                     ghost state: State, ghost s: Split<seq<seq<int>>>)
    returns (restarted: ArithEncoder.Encoder, ghost more: seq<seq<int>>)
    requires IsConfig(g) && Standing(e, g, dest, codes, state, s) && num == |codes| % 8
    modifies e
    ensures fresh(restarted) && |more| == |codes| + 1
    ensures Standing(restarted, g, dest, more, Initial(g), Split(s.groups + [s.cur], [], s.togo))
  {
    hide SegmentTape, RestartBytes, SegmentState, Stuff, IsConfig, SegmentCoded, ArithEncoder.Encoder.Valid, Ended;
    FinishSegment(e, g, dest, codes, state, s);
    more := codes + [e.data];
    RestartSnoc(codes, e.data);
    BandEncoder.EndedIs(dest, RestartBytes(codes), e.data, |codes|);
    restarted := new ArithEncoder.Encoder(e.out + [0xFF, RST0 + num]);
    StartSegment(g);
  }

  /** What one more MCU does to the split. */
  lemma SplitStep(g: Config, vs: seq<seq<seq<int>>>, interval: nat, n: nat)
    requires AreMcus(g, vs) && n < |vs|
    ensures AreMcus(g, vs[..n]) && AreMcus(g, vs[..n + 1])
    ensures var s, q := SplitBy(vs[..n], interval), SplitBy(vs[..n + 1], interval);
      var restart := interval > 0 && s.togo == 0;
      && AreMcus(g, s.cur) && q.cur == (if restart then [] else s.cur) + [vs[n]]
      && q.groups == s.groups + (if restart then [s.cur] else [])
      && q.togo == if interval == 0 then s.togo else if restart then interval - 1 else s.togo - 1
  {
    assert vs[..n + 1][..n] == vs[..n];
    SplitMcus(g, vs[..n], interval);
    assert [] + [vs[n]] == [vs[n]];
  }

  method StartScan(g: Config, dest: seq<int>, ghost interval: nat) returns (e: ArithEncoder.Encoder)
    requires IsConfig(g)
    ensures fresh(e) && Standing(e, g, dest, [], Initial(g), Split([], [], interval))
  {
    hide IsConfig, ArithEncoder.Encoder.Valid;
    e := new ArithEncoder.Encoder(dest);
    StartSegment(g);
    assert RestartBytes([]) == [];
  }

  /** One more MCU of the current segment. */
  method NextMcu(e: ArithEncoder.Encoder, g: Config, mcu: seq<seq<int>>, order: seq<nat>, state: State,
                 ghost dest: seq<int>, ghost codes: seq<seq<int>>, ghost s: Split<seq<seq<int>>>, ghost togo: nat)
    returns (next: State)
    requires IsConfig(g) && IsMcu(g, mcu) && IsZigzag(order) && Standing(e, g, dest, codes, state, s)
    modifies e
    ensures Standing(e, g, dest, codes, next, Split(s.groups, s.cur + [ZigzagMcu(mcu, order)], togo))
  {
    hide IsConfig, ArithEncoder.Encoder.Valid, SegmentTape, SegmentState, McuTape, StateAfter, IsOrder, AllCoded;
    hide RestartBytes, IsState;
    ghost var v := ZigzagMcu(mcu, order);
    SegmentSnoc(g, s.cur, v);
    Chain(SegmentTape(g, s.cur), McuTape(g, v, |v|, state), []);
    next := EncodeMcu(e, g, mcu, order, state);
  }

  /** A whole scan, MCU by MCU with restarts. */
  method EncodeScan(mcus: seq<seq<seq<int>>>, g: Config, order: seq<nat>, interval: nat, dest: seq<int>)
    returns (out: seq<int>, ghost codes: seq<seq<int>>)
    requires IsConfig(g) && NaturalMcus(g, mcus) && IsZigzag(order)
    ensures var vs := ZigzagMcus(g, mcus, order);
      && AreSegments(g, SegmentsOf(vs, interval)) && |codes| > 0 && AllCoded(g, SegmentsOf(vs, interval), codes)
      && out == ScanBytes(dest, codes[..|codes| - 1], codes[|codes| - 1])
  {
    hide IsConfig, SplitBy, IsOrder, ZigzagMcu, Standing, ScanBytes, AllCoded;
    ghost var vs := ZigzagMcus(g, mcus, order);
    codes := [];
    var e := StartScan(g, dest, interval);
    var state, restarts_to_go, next_restart_num := Initial(g), interval, 0;
    NothingSplit(vs, interval);
    for i := 0 to |mcus|
      invariant fresh(e) && next_restart_num == |codes| % 8 && AreMcus(g, vs[..i])
      invariant restarts_to_go == SplitBy(vs[..i], interval).togo
      invariant Standing(e, g, dest, codes, state, SplitBy(vs[..i], interval))
    {
      ghost var s, q := SplitBy(vs[..i], interval), SplitBy(vs[..i + 1], interval);
      SplitStep(g, vs, interval, i);
      if interval > 0 {
        if restarts_to_go == 0 {
          e, codes := EmitRestart(e, g, next_restart_num, dest, codes, state, s);
          s := Split(s.groups + [s.cur], [], s.togo);
          state := Initial(g);
          restarts_to_go := interval;
          next_restart_num := next_restart_num + 1;
          next_restart_num := next_restart_num % 8;
        }
        restarts_to_go := restarts_to_go - 1;
      }
      state := NextMcu(e, g, mcus[i], order, state, dest, codes, s, q.togo);
      assert q == Split(s.groups, s.cur + [vs[i]], q.togo);
    }
    assert vs[..|mcus|] == vs;
    ghost var s := SplitBy(vs, interval);
    FinishSegment(e, g, dest, codes, state, s);
    out := e.out;
    ghost var finished := codes;
    codes := codes + [e.data];
    assert codes[..|codes| - 1] == finished;
  }

  lemma NothingSplit(vs: seq<seq<seq<int>>>, interval: nat)
    ensures SplitBy(vs[..0], interval) == Split([], [], interval)
  {
  }
}
