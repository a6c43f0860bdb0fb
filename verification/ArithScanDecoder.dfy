/** Decoding arithmetic-coded scans of all five kinds, across restart markers. */
module ArithScanDecoder {
  import opened Numbers
  import opened IntervalCoder
  import opened ByteStuffing
  import opened BitReader
  import opened Values
  import opened BandPlan
  import opened BandEncoder
  import opened BandDecoder
  import opened SequentialEncoder
  import opened BlockArrays
  import opened ArithTape
  import opened ArithCoefEncoder
  import opened ArithCoefDecoder
  import opened ArithScan
  import opened Restarts
  import opened Segments
  import ArithDecoder
  import ScanReader

  /** A coefficient as known after a scan down to bit al: the DC value shifted, the others
      truncated toward zero. */
  function Known(j: nat, x: int, al: nat): int {
    if j == 0 then Floor(x, al) * Pow2(al) else Trunc(x, al)
  }

  /** What is known is a multiple of the last bit sent: of the DC value the greatest one not above it, of
      another coefficient the greatest in magnitude, on the same side of zero. */
  lemma KnownIs(j: nat, x: int, al: nat)
    ensures Known(j, x, al) % Pow2(al) == 0
    ensures j == 0 ==> Known(j, x, al) <= x < Known(j, x, al) + Pow2(al)
    ensures j > 0 ==> Abs(Known(j, x, al)) <= Abs(x) < Abs(Known(j, x, al)) + Pow2(al)
    ensures j > 0 ==> (Known(j, x, al) > 0 ==> x > 0) && (Known(j, x, al) < 0 ==> x < 0)
  {
    hide Pow2;
    Multiple(x, Pow2(al));
    Multiple(Abs(x), Pow2(al));
  }

  lemma Multiple(x: int, u: int)
    requires u > 0
    ensures x / u * u <= x < x / u * u + u && (x >= 0 ==> 0 <= x / u * u)
    ensures (x / u * u) % u == 0 && (-(x / u * u)) % u == 0 && -(x / u) * u == -(x / u * u)
  {
    var q := x / u;
    assert x == q * u + x % u;
    ModUnique(q * u, u, q, 0);
    Negated(q, u);
    ModUnique(-(q * u), u, -q, 0);
    if x >= 0 && q < 0 { MulLe(q, -1, u); } else if q >= 0 { MulLe(0, q, u); }
  }

  lemma Negated(q: int, u: int)
    ensures -q * u == -(q * u)
  {
  }

  /** The block after the scan: the band known to bit al, the rest as before. */
  ghost function After(g: Config, z0: seq<int>, v: seq<int>): (z: seq<int>)
    requires |z0| == |v| == 64
    ensures |z| == 64 && forall j :: 0 <= j < 64 ==> z[j] == if g.ss <= j <= g.se then Known(j, v[j], g.al) else z0[j]
  {
    seq(64, j requires 0 <= j < 64 => if g.ss <= j <= g.se then Known(j, v[j], g.al) else z0[j])
  }

  /** What the routine finds: a cleared band, or for a refinement the next coarser precision. */
  ghost predicate Before(g: Config, z0: seq<int>, v: seq<int>) {
    && |z0| == |v| == 64
    && forall j :: g.ss <= j <= g.se && j < 64 ==>
         if g.kind.DcRefine? || g.kind.AcRefine? then z0[j] == Known(j, v[j], g.al + 1) else j > 0 ==> z0[j] == 0
  }

  /** What the routine can work on; a DC refinement sets a bit in whatever it finds. */
  ghost predicate Workable(g: Config, z0: seq<int>, v: seq<int>) {
    |z0| == |v| == 64 && (g.kind.DcRefine? || Before(g, z0, v))
  }

  /** What the routine leaves: the block after the scan, if it found what belongs before it. */
  ghost predicate Left(g: Config, z: seq<int>, z0: seq<int>, v: seq<int>)
    requires |z0| == |v| == 64
  {
    Before(g, z0, v) ==> z == After(g, z0, v)
  }

  /** Values the coder can express. */
  ghost predicate Fits(g: Config, ci: nat, v: seq<int>, s: State)
    requires IsConfig(g) && IsState(g, s) && ci < |g.dc| && |v| == 64
  {
    && (g.kind.Sequential? || g.kind.DcFirst? ==> Abs(DcValue(g, v) - s.last[ci]) <= 0x8000)
    && (g.kind.Sequential? || g.kind.AcFirst? ==>
          forall j :: g.ss <= j <= g.se && 0 < j < 64 ==> Abs(Transformed(v, g.al)[j]) <= 0x8000)
  }

  /** The statistics areas are never overrun: DC bins stay below 49, AC bins below 245. */
  lemma BlockInAreas(g: Config, ci: nat, v: seq<int>, s: State)
    requires IsConfig(g) && IsState(g, s) && ci < |g.dc| && |v| == 64 && Fits(g, ci, v, s)
    ensures InAreas(BlockTape(g, ci, v, s))
  {
    hide DcTape, AcTape, RefineTape, InAreas, EndIndex, Transformed, Magnitudes;
    var d, t := g.dc[ci], g.ac[ci];
    match g.kind {
      case Sequential =>
        var z := Transformed(v, 0);
        DcInArea(d, s.context[ci], v[0] - s.last[ci]);
        AcInArea(t, z, 0, EndIndex(z, g.se), g.kx[t], g.se);
        if g.se > 0 {
          InAreasConcat(DcTape(d, s.context[ci], v[0] - s.last[ci]), AcTape(t, z, 0, EndIndex(z, g.se), g.kx[t], g.se));
        } else {
          assert DcTape(d, s.context[ci], v[0] - s.last[ci]) + [] == DcTape(d, s.context[ci], v[0] - s.last[ci]);
        }
      case DcFirst => DcInArea(d, s.context[ci], Floor(v[0], g.al) - s.last[ci]);
      case AcFirst =>
        var z := Transformed(v, g.al);
        AcInArea(t, z, g.ss - 1, EndIndex(z, g.se), g.kx[t], g.se);
      case DcRefine => OneInArea(Floor(v[0], g.al) % 2);
      case AcRefine =>
        EndNonzero(v, g.al, g.se);
        var ke := EndIndex(Transformed(v, g.al), g.se);
        RefineInArea(t, v, Magnitudes(v, g.al), g.ss - 1, ke, EndIndex(Transformed(v, g.al + 1), ke), g.se);
    }
  }

  lemma OneInArea(bit: int)
    requires 0 <= bit <= 1
    ensures InAreas([Decision(Fixed, bit)])
  {
  }

  lemma NothingShifted(x: int)
    ensures Known(0, x, 0) == x && Trunc(x, 0) == x
  {
    assert Pow2(0) == 1;
  }

  lemma ScaledIsTrunc(v: seq<int>, al: nat, j: nat)
    requires j < |v|
    ensures Scaled(Transformed(v, al), al)[j] == Trunc(v[j], al)
  {
    hide Pow2, Shifted;
    ZeroTimes(Pow2(al));
  }

  lemma ZeroTimes(u: int)
    ensures forall t: int {:trigger t * u} :: (-t) * u == -(t * u)
  {
  }

  lemma RebuiltIs(g: Config, z: seq<int>, z0: seq<int>, v: seq<int>)
    requires g.ss > 0 && |v| == 64 && Rebuilt(z, z0, Scaled(Transformed(v, g.al), g.al), g.ss, g.se + 1)
    ensures z == After(g, z0, v)
  {
    hide Trunc;
    forall j | 0 <= j < 64 && g.ss <= j <= g.se ensures z[j] == Known(j, v[j], g.al) {
      ScaledIsTrunc(v, g.al, j);
    }
  }

  /** The DC coefficient of a block. */
  method SetDc(block: array<int>, order: seq<nat>, x: int)
    requires block.Length == 64 && IsZigzag(order)
    modifies block
    ensures Zigzag(block[..], order) == old(Zigzag(block[..], order))[0 := x]
  {
    ZigzagUpdate(block[..], order, 0, x);
    ghost var was := block[..];
    block[0] := x;
    assert block[..] == was[order[0] := x];
  }

  method DecodeSequential(a: Asker, g: Config, ci: nat, block: array<int>, order: seq<nat>, s: State,
                          ghost v: seq<int>, ghost rest: seq<Decision>)
    returns (ok: bool, next: State)
    requires a.Valid() && IsConfig(g) && IsState(g, s) && ci < |g.dc| && block.Length == 64 && IsZigzag(order)
    requires |v| == 64
    requires g.kind.Sequential? && Fits(g, ci, v, s) && Before(g, Zigzag(block[..], order), v)
    requires a.Ahead() == BlockTape(g, ci, v, s) + rest
    modifies a, a.d, block
    ensures ok && a.Valid() && a.Ahead() == rest && next == NextState(g, ci, v, s)
    ensures Zigzag(block[..], order) == After(g, old(Zigzag(block[..], order)), v)
  {
    hide Asker.Valid, Asker.Ahead, DcTape, AcTape, EndIndex, Zigzag, IsOrder, NextContext, Transformed;
    ghost var z0 := Zigzag(block[..], order);
    var d, t := g.dc[ci], g.ac[ci];
    ghost var ac := if g.se == 0 then [] else
      AcTape(t, Transformed(v, 0), 0, EndIndex(Transformed(v, 0), g.se), g.kx[t], g.se);
    Chain(DcTape(d, s.context[ci], v[0] - s.last[ci]), ac, rest);
    var diff, context;
    ok, diff, context := DecodeDc(a, d, s.context[ci], g.lower[d], g.upper[d], v[0] - s.last[ci], ac + rest);
    next := s;
    if !ok {
      return;
    }
    next := State(s.last[ci := s.last[ci] + diff], s.context[ci := context]);
    SetDc(block, order, next.last[ci]);
    if g.se > 0 {
      ok := DecodeAc(a, t, block, order, 1, g.se, 0, g.kx[t], Transformed(v, 0), rest);
    } else {
      assert [] + rest == rest;
    }
    SequentialIs(g, Zigzag(block[..], order), z0, v);
  }

  lemma SequentialIs(g: Config, z: seq<int>, z0: seq<int>, v: seq<int>)
    requires |z0| == |v| == 64 && g.ss == 0 && g.al == 0 && g.se < 64
    requires if g.se > 0 then Rebuilt(z, z0[0 := v[0]], Scaled(Transformed(v, 0), 0), 1, g.se + 1)
             else z == z0[0 := v[0]]
    ensures z == After(g, z0, v)
  {
    hide Trunc, Floor;
    NothingShifted(v[0]);
    forall j | 0 < j <= g.se ensures z[j] == Known(j, v[j], 0) {
      ScaledIsTrunc(v, 0, j);
    }
  }

  lemma DcOnly(g: Config, z: seq<int>, z0: seq<int>, v: seq<int>)
    requires |z0| == |v| == 64 && g.ss == g.se == 0 && z == z0[0 := Known(0, v[0], g.al)]
    ensures z == After(g, z0, v)
  {
    hide Floor, Pow2;
  }

  /** The refinement bit of a DC value, in two's complement, lands in a clear bit. */
  lemma RefinedDc(x: int, al: nat)
    ensures Known(0, x, al) ==
      if Floor(x, al) % 2 != 0 then SetBit(Known(0, x, al + 1), Pow2(al)) else Known(0, x, al + 1)
  {
    hide Pow2;
    var u, q := Pow2(al), x / Pow2(al);
    PowTwice(al);
    HalfShiftInt(x, q, u, x % u);
    var h := q / 2;
    assert q == 2 * h + q % 2;
    OlderInt(h, u);
    ModUnique((2 * h) * u, u, 2 * h, 0);
    Numbers.Distribute(2 * h, q % 2, u);
  }

  lemma RefineLeaves(g: Config, z: seq<int>, z0: seq<int>, v: seq<int>)
    requires |z0| == |v| == 64 && g.ss == g.se == 0 && g.kind.DcRefine?
    requires z == if Floor(v[0], g.al) % 2 != 0 then z0[0 := SetBit(z0[0], Pow2(g.al))] else z0
    ensures Left(g, z, z0, v)
  {
    hide Floor, Pow2, Known, SetBit, After;
    if Before(g, z0, v) {
      RefinedDc(v[0], g.al);
      assert z == z0[0 := Known(0, v[0], g.al)];
      DcOnly(g, z, z0, v);
    }
  }

  lemma SharpStart(g: Config, z0: seq<int>, v: seq<int>)
    requires IsConfig(g) && g.kind.AcRefine? && Before(g, z0, v)
    ensures Sharpened(z0, z0, v, g.ss, g.se, g.al, g.ss)
  {
    hide Trunc;
  }

  lemma SharpEnd(g: Config, z: seq<int>, z0: seq<int>, v: seq<int>)
    requires IsConfig(g) && g.ss > 0 && Sharpened(z, z0, v, g.ss, g.se, g.al, g.se + 1)
    ensures z == After(g, z0, v)
  {
    hide Trunc;
  }

  /** One block, as the scan's MCU routine decodes it. */
  method DecodeBlock(a: Asker, g: Config, ci: nat, block: array<int>, order: seq<nat>, s: State, ghost v: seq<int>,
                     ghost rest: seq<Decision>)
    returns (ok: bool, next: State)
    requires a.Valid() && IsConfig(g) && IsState(g, s) && ci < |g.dc| && block.Length == 64 && IsZigzag(order)
    requires |v| == 64
    requires Fits(g, ci, v, s) && Workable(g, Zigzag(block[..], order), v)
    requires a.Ahead() == BlockTape(g, ci, v, s) + rest
    modifies a, a.d, block
    ensures ok && a.Valid() && a.Ahead() == rest && next == NextState(g, ci, v, s)
    ensures Left(g, Zigzag(block[..], order), old(Zigzag(block[..], order)), v)
  {
    hide Asker.Valid, Asker.Ahead, DcTape, AcTape, EndIndex, Zigzag, IsOrder, NextContext, Transformed, RefineTape;
    hide Trunc, Pow2, Sharpened, Magnitudes;
    ghost var z0 := Zigzag(block[..], order);
    ok, next := true, s;
    var d, t := g.dc[ci], g.ac[ci];
    match g.kind {
      case Sequential =>
        ok, next := DecodeSequential(a, g, ci, block, order, s, v, rest);
      case DcFirst =>
        var diff, context;
        ok, diff, context := DecodeDc(a, d, s.context[ci], g.lower[d], g.upper[d], Floor(v[0], g.al) - s.last[ci],
                                      rest);
        if !ok {
          return;
        }
        next := State(s.last[ci := s.last[ci] + diff], s.context[ci := context]);
        SetDc(block, order, next.last[ci] * Pow2(g.al));
        DcOnly(g, Zigzag(block[..], order), z0, v);
      case AcFirst =>
        ok := DecodeAc(a, t, block, order, g.ss, g.se, g.al, g.kx[t], Transformed(v, g.al), rest);
        RebuiltIs(g, Zigzag(block[..], order), z0, v);
      case DcRefine =>
        var bit := a.Ask(Fixed, rest);
        RefinedDc(v[0], g.al);
        if bit != 0 {
          SetDc(block, order, SetBit(block[0], Pow2(g.al)));
        }
        RefineLeaves(g, Zigzag(block[..], order), z0, v);
      case AcRefine =>
        SharpStart(g, z0, v);
        EndNonzero(v, g.al, g.se);
        ok := DecodeAcRefine(a, t, block, order, g.ss, g.se, g.al, v, rest);
        SharpEnd(g, Zigzag(block[..], order), z0, v);
    }
  }

  // MCUs -----------------------------------------------------------------------------------------

  /** The decisions of an MCU from block n on. */
  ghost function McuFrom(g: Config, mcu: seq<seq<int>>, n: nat, s: State): seq<Decision>
    requires IsConfig(g) && IsState(g, s) && IsMcu(g, mcu) && n <= |mcu|
    decreases |mcu| - n
  {
    if n == |mcu| then []
    else BlockTape(g, g.member[n], mcu[n], StateAfter(g, mcu, n, s)) + McuFrom(g, mcu, n + 1, s)
  }

  lemma {:induction false} McuFromIs(g: Config, mcu: seq<seq<int>>, n: nat, s: State)
    requires IsConfig(g) && IsState(g, s) && IsMcu(g, mcu) && n <= |mcu|
    ensures McuTape(g, mcu, n, s) + McuFrom(g, mcu, n, s) == McuTape(g, mcu, |mcu|, s)
    decreases |mcu| - n
  {
    hide BlockTape;
    if n < |mcu| {
      McuFromIs(g, mcu, n + 1, s);
      Chain(McuTape(g, mcu, n, s), BlockTape(g, g.member[n], mcu[n], StateAfter(g, mcu, n, s)),
            McuFrom(g, mcu, n + 1, s));
    } else {
      assert McuTape(g, mcu, n, s) + [] == McuTape(g, mcu, n, s);
    }
  }

  /** Every value of the MCU can be coded. */
  ghost predicate McuFits(g: Config, mcu: seq<seq<int>>, s: State)
    requires IsConfig(g) && IsState(g, s) && IsMcu(g, mcu)
  {
    forall i :: 0 <= i < |mcu| ==> Fits(g, g.member[i], mcu[i], StateAfter(g, mcu, i, s))
  }

  /** The MCU's blocks with the first n decoded. */
  ghost predicate McuState(g: Config, now: seq<seq<int>>, was: seq<seq<int>>, order: seq<nat>, v: seq<seq<int>>, n: nat)
    requires IsZigzag(order)
  {
    && |now| == |was| == |v|
    && forall i :: 0 <= i < |now| ==>
         && |now[i]| == |was[i]| == |v[i]| == 64 && Workable(g, Zigzag(was[i], order), v[i])
         && if i < n then Left(g, Zigzag(now[i], order), Zigzag(was[i], order), v[i]) else now[i] == was[i]
  }

  lemma StateStep(g: Config, now: seq<seq<int>>, was: seq<seq<int>>, order: seq<nat>, v: seq<seq<int>>, n: nat,
                  x: seq<int>)
    requires IsZigzag(order) && McuState(g, now, was, order, v, n) && n < |now| && |x| == 64
    requires |now[n]| == |v[n]| == 64 && Left(g, Zigzag(x, order), Zigzag(now[n], order), v[n])
    ensures McuState(g, now[n := x], was, order, v, n + 1)
  {
    hide Zigzag, IsOrder, Workable, Left;
  }

  lemma StateAt(g: Config, now: seq<seq<int>>, was: seq<seq<int>>, order: seq<nat>, v: seq<seq<int>>, n: nat)
    requires IsZigzag(order) && McuState(g, now, was, order, v, n) && n < |now|
    ensures |now| == |v| && |now[n]| == |v[n]| == 64 && Workable(g, Zigzag(now[n], order), v[n])
  {
    hide Zigzag, IsOrder, Workable, Left;
  }

  method DecodeNext(a: Asker, g: Config, blocks: seq<array<int>>, order: seq<nat>, n: nat, s: State,
                    ghost v: seq<seq<int>>, ghost s0: State, ghost was: seq<seq<int>>, ghost rest: seq<Decision>)
    returns (ok: bool, next: State)
    requires a.Valid() && IsConfig(g) && IsState(g, s0) && IsMcu(g, v) && n < |v| && AreArrays(blocks, |g.member|)
    requires IsZigzag(order)
    requires s == StateAfter(g, v, n, s0) && McuFits(g, v, s0) && McuState(g, Contents(blocks), was, order, v, n)
    requires a.Ahead() == McuFrom(g, v, n, s0) + rest
    modifies a, a.d, blocks[n]
    ensures ok && a.Valid() && a.Ahead() == McuFrom(g, v, n + 1, s0) + rest && next == StateAfter(g, v, n + 1, s0)
    ensures McuState(g, Contents(blocks), was, order, v, n + 1)
  {
    hide Asker.Valid, Asker.Ahead, BlockTape, NextState, Fits, Workable, Zigzag, IsOrder, McuState, Left;
    ghost var now := Contents(blocks);
    StateAt(g, now, was, order, v, n);
    Chain(BlockTape(g, g.member[n], v[n], s), McuFrom(g, v, n + 1, s0), rest);
    ghost var tape := BlockTape(g, g.member[n], v[n], s);
    assert tape + McuFrom(g, v, n + 1, s0) + rest == tape + (McuFrom(g, v, n + 1, s0) + rest);
    ok, next := DecodeBlock(a, g, g.member[n], blocks[n], order, s, v[n], McuFrom(g, v, n + 1, s0) + rest);
    assert Contents(blocks) == now[n := blocks[n][..]];
    StateStep(g, now, was, order, v, n, blocks[n][..]);
  }

  /** The block loop of decode_mcu and its progressive variants. */
  method DecodeMcu(a: Asker, g: Config, blocks: seq<array<int>>, order: seq<nat>, s: State, ghost v: seq<seq<int>>,
                   ghost rest: seq<Decision>)
    returns (ok: bool, next: State)
    requires a.Valid() && IsConfig(g) && IsState(g, s) && IsMcu(g, v) && AreArrays(blocks, |g.member|)
    requires IsZigzag(order)
    requires McuFits(g, v, s) && McuState(g, Contents(blocks), Contents(blocks), order, v, 0)
    requires a.Ahead() == McuTape(g, v, |v|, s) + rest
    modifies a, a.d, blocks
    ensures ok && a.Valid() && a.Ahead() == rest && next == StateAfter(g, v, |v|, s)
    ensures McuState(g, Contents(blocks), old(Contents(blocks)), order, v, |v|)
  {
    hide Asker.Valid, Asker.Ahead, BlockTape, NextState, McuState, IsOrder, McuFits, IsConfig, IsState;
    McuFromIs(g, v, 0, s);
    assert McuTape(g, v, 0, s) + McuFrom(g, v, 0, s) == McuFrom(g, v, 0, s);
    ghost var was := Contents(blocks);
    ok, next := true, s;
    for blkn := 0 to |blocks|
      invariant ok && a.Valid() && a.Ahead() == McuFrom(g, v, blkn, s) + rest && next == StateAfter(g, v, blkn, s)
      invariant McuState(g, Contents(blocks), was, order, v, blkn)
    {
      ok, next := DecodeNext(a, g, blocks, order, blkn, next, v, s, was, rest);
      if !ok {
        return;
      }
    }
    assert [] + rest == rest;
  }

  // Scans ----------------------------------------------------------------------------------------

  ghost predicate SegmentFits(g: Config, seg: seq<seq<seq<int>>>)
    requires IsConfig(g) && AreMcus(g, seg)
  {
    forall j :: 0 <= j < |seg| ==> McuFits(g, seg[j], SegmentState(g, seg[..j]))
  }

  /** The scan in the source: its segments code these MCUs, whose values can all be expressed. */
  ghost predicate GoodScan(g: Config, src: seq<int>, start: nat, codes: seq<seq<int>>, vs: seq<seq<seq<int>>>,
                           interval: nat) {
    var segs := SegmentsOf(vs, interval);
    && IsConfig(g) && AreMcus(g, vs) && AreSegments(g, segs) && ScanAt(src, start, codes) && AllCoded(g, segs, codes)
    && forall i :: 0 <= i < |segs| ==> SegmentFits(g, segs[i])
  }

  lemma {:induction false} TapePrefix(g: Config, mcus: seq<seq<seq<int>>>, j: nat) returns (more: seq<Decision>)
    requires IsConfig(g) && AreMcus(g, mcus) && j <= |mcus|
    ensures SegmentTape(g, mcus) == SegmentTape(g, mcus[..j]) + more
  {
    hide McuTape, IsConfig, SegmentState;
    var n := |mcus| - 1;
    if j == |mcus| {
      assert mcus[..j] == mcus;
      more := [];
    } else {
      var m := TapePrefix(g, mcus[..n], j);
      assert mcus[..n][..j] == mcus[..j];
      more := m + McuTape(g, mcus[n], |mcus[n]|, SegmentState(g, mcus[..n]));
    }
  }

  /** What is left of a segment's tape after its first j MCUs. */
  ghost function TapeFrom(g: Config, seg: seq<seq<seq<int>>>, j: nat): seq<Decision>
    requires IsConfig(g) && AreMcus(g, seg) && j <= |seg|
  {
    var done := |SegmentTape(g, seg[..j])|;
    if done <= |SegmentTape(g, seg)| then SegmentTape(g, seg)[done..] else []
  }

  lemma McuAhead(g: Config, seg: seq<seq<seq<int>>>, j: nat)
    requires IsConfig(g) && AreMcus(g, seg) && j < |seg|
    ensures IsMcu(g, seg[j]) && AreMcus(g, seg[..j]) && AreMcus(g, seg[..j + 1])
    ensures TapeFrom(g, seg, j) == McuTape(g, seg[j], |seg[j]|, SegmentState(g, seg[..j])) + TapeFrom(g, seg, j + 1)
    ensures SegmentState(g, seg[..j + 1]) == StateAfter(g, seg[j], |seg[j]|, SegmentState(g, seg[..j]))
  {
    hide McuTape, IsConfig, SegmentState, StateAfter;
    assert seg[..j + 1] == seg[..j] + [seg[j]];
    SegmentSnoc(g, seg[..j], seg[j]);
    var more := TapePrefix(g, seg, j + 1);
    var head, mcu := SegmentTape(g, seg[..j]), McuTape(g, seg[j], |seg[j]|, SegmentState(g, seg[..j]));
    assert SegmentTape(g, seg) == head + mcu + more;
  }

  /** The decoder inside segment i, before its MCU j. */
  ghost predicate Inside(a: Asker, g: Config, src: seq<int>, start: nat, codes: seq<seq<int>>,
                         segs: seq<seq<seq<seq<int>>>>, state: State, i: nat, j: nat)
    requires IsConfig(g) && AreSegments(g, segs) && i < |segs| == |codes| && j <= |segs[i]|
    reads a, a.d
  {
    && a.Valid() && a.d.src == src && a.d.code == codes[i] && a.d.end == EndOf(start, codes, i)
    && AreMcus(g, segs[i][..j]) && a.Ahead() == TapeFrom(g, segs[i], j) && state == SegmentState(g, segs[i][..j])
  }

  lemma CodeHolds(src: seq<int>, pos: nat, code: seq<int>, end: nat)
    requires InSource(src, pos, code, 0, end) && end == pos + |Stuff(code)| + 1
    ensures Holds(src, pos, code, 1)
  {
    hide Stuff;
    assert code[0..] == code;
  }

  lemma StartOfTape(g: Config, seg: seq<seq<seq<int>>>)
    requires IsConfig(g) && AreMcus(g, seg)
    ensures AreMcus(g, seg[..0]) && TapeFrom(g, seg, 0) == SegmentTape(g, seg)
    ensures SegmentState(g, seg[..0]) == Initial(g)
  {
    hide IsConfig, McuTape, StateAfter;
  }

  /** start_pass, and the end of process_restart. */
  method StartSegment(g: Config, src: seq<int>, pos: nat, ghost start: nat, ghost codes: seq<seq<int>>,
                      ghost segs: seq<seq<seq<seq<int>>>>, ghost i: nat)
    returns (a: Asker)
    requires IsConfig(g) && AreSegments(g, segs) && i < |segs| && AllCoded(g, segs, codes)
    requires ScanAt(src, start, codes) && pos == StartOf(start, codes, i)
    ensures fresh(a) && fresh(a.d) && Inside(a, g, src, start, codes, segs, Initial(g), i, 0)
  {
    hide IsConfig, InSource, StartOf, Run, Spells, SegmentTape, Stuff, ArithDecoder.Decoder.Valid, Asker.Valid;
    hide Asker.Ahead;
    assert SegmentAt(src, start, codes, i);
    CodeHolds(src, pos, codes[i], EndOf(start, codes, i));
    assert SegmentCoded(g, segs[i], codes[i]);
    var d := new ArithDecoder.Decoder(src, pos, codes[i], 1);
    a := new Asker(d, SegmentTape(g, segs[i]));
    StartOfTape(g, segs[i]);
  }

  lemma DecoderInSource(d: ArithDecoder.Decoder)
    requires d.Valid() && d.marker == 0 && d.end < |d.src|
    ensures InSource(d.src, d.pos, d.code, d.m, d.end)
  {
    hide Stuff, Decoding, ArithDecoder.Tracks;
  }

  lemma DecoderPastMarker(d: ArithDecoder.Decoder)
    requires d.Valid() && d.marker != 0 && d.end < |d.src|
    ensures d.pos == d.end + 1 && d.marker == d.src[d.end]
  {
    hide Stuff, Decoding, ArithDecoder.Tracks;
  }

  /** read_restart_marker, whether or not the decoder has run into the marker already: reading goes on after
      it if it is the expected one; otherwise the source manager would have to resynchronize. */
  method ReadRestartMarker(d: ArithDecoder.Decoder, num: nat) returns (ok: bool, pos: nat)
    requires d.Valid() && d.end < |d.src|
    ensures (ok <==> d.src[d.end] == RST0 + num) && pos == d.end + 1
  {
    hide Stuff, InSource, ArithDecoder.Decoder.Valid;
    pos, ok := d.pos, true;
    var marker := d.marker;
    if marker == 0 {
      DecoderInSource(d);
      var discarded;
      ghost var m;
      ok, pos, discarded, marker, m := ScanToMarker(d.src, |d.src|, d.pos, 0, d.code, d.m, d.end);
    } else {
      DecoderPastMarker(d);
    }
    if ok {
      ok := marker == RST0 + num;
    }
  }

  /** process_restart: on to the next segment. */
  method ProcessRestart(a: Asker, g: Config, num: nat, ghost src: seq<int>, ghost start: nat,
                        ghost codes: seq<seq<int>>, ghost segs: seq<seq<seq<seq<int>>>>, ghost state: State,
                        ghost i: nat, ghost j: nat)
    returns (ok: bool, restarted: Asker)
    requires IsConfig(g) && AreSegments(g, segs) && i + 1 < |segs| && AllCoded(g, segs, codes)
    requires ScanAt(src, start, codes)
    requires j <= |segs[i]| && Inside(a, g, src, start, codes, segs, state, i, j) && num == i % 8
    ensures ok && fresh(restarted) && fresh(restarted.d)
    ensures Inside(restarted, g, src, start, codes, segs, Initial(g), i + 1, 0)
  {
    hide IsConfig, InSource, StartOf, ArithDecoder.Decoder.Valid, SegmentCoded, EndOf, TapeFrom, SegmentState;
    assert SegmentAt(src, start, codes, i);
    ScanReader.EndInside(src, StartOf(start, codes, i), codes[i], 0, EndOf(start, codes, i));
    var pos;
    ok, pos := ReadRestartMarker(a.d, num);
    restarted := a;
    if !ok {
      return;
    }
    restarted := StartSegment(g, a.d.src, pos, start, codes, segs, i + 1);
  }

  /** Where MCU n lies: after any restart that is due, it is MCU j of segment i. */
  lemma Here(g: Config, src: seq<int>, start: nat, codes: seq<seq<int>>, vs: seq<seq<seq<int>>>, interval: nat, n: nat)
    requires GoodScan(g, src, start, codes, vs, interval) && n < |vs|
    ensures var segs, s, q := SegmentsOf(vs, interval), SplitBy(vs[..n], interval), SplitBy(vs[..n + 1], interval);
      var restart := interval > 0 && s.togo == 0;
      var i, j := |q.groups|, if restart then 0 else |s.cur|;
      && i == |s.groups| + (if restart then 1 else 0) && i < |segs| && j < |segs[i]| && segs[i][j] == vs[n]
      && |q.cur| == j + 1 && |s.groups| < |segs| == |codes| && |s.cur| <= |segs[|s.groups|]|
      && q.togo == (if interval == 0 then s.togo else if restart then interval - 1 else s.togo - 1)
      && AreMcus(g, segs[i]) && AreMcus(g, segs[i][..j]) && McuFits(g, vs[n], SegmentState(g, segs[i][..j]))
  {
    hide ScanAt, SegmentCoded, IsConfig, SegmentState, McuFits;
    SplitPrefix(vs, interval, n);
    assert vs[..n + 1][..n] == vs[..n];
    var segs := SegmentsOf(vs, interval);
    var i := |SplitBy(vs[..n + 1], interval).groups|;
    assert SegmentFits(g, segs[i]);
  }

  /** All blocks of the band as the scan's routines expect them. */
  ghost predicate Expected(g: Config, coefs: seq<seq<seq<int>>>, vs: seq<seq<seq<int>>>, order: seq<nat>) {
    && |coefs| == |vs| && IsZigzag(order)
    && forall n :: 0 <= n < |coefs| ==> McuState(g, coefs[n], coefs[n], order, vs[n], 0)
  }

  /** The first MCUs decoded: every block is as `After` says. */
  ghost predicate Decoded(g: Config, result: seq<seq<seq<int>>>, coefs: seq<seq<seq<int>>>, vs: seq<seq<seq<int>>>,
                          order: seq<nat>) {
    && |result| <= |coefs| == |vs| && IsZigzag(order)
    && forall n :: 0 <= n < |result| ==> McuState(g, result[n], coefs[n], order, vs[n], |vs[n]|)
  }

  /** One MCU where the decoder stands. */
  method DecodeHere(a: Asker, g: Config, order: seq<nat>, mcu: seq<seq<int>>, s: State, ghost v: seq<seq<int>>,
                    ghost src: seq<int>, ghost start: nat, ghost codes: seq<seq<int>>,
                    ghost segs: seq<seq<seq<seq<int>>>>, ghost i: nat, ghost j: nat)
    returns (ok: bool, next: State, result: seq<seq<int>>)
    requires IsConfig(g) && AreSegments(g, segs) && i < |segs| == |codes| && j < |segs[i]| && segs[i][j] == v
    requires Inside(a, g, src, start, codes, segs, s, i, j) && IsZigzag(order)
    requires AreMcus(g, segs[i]) && AreMcus(g, segs[i][..j]) && McuFits(g, v, SegmentState(g, segs[i][..j]))
    requires McuState(g, mcu, mcu, order, v, 0)
    modifies a, a.d
    ensures ok && Inside(a, g, src, start, codes, segs, next, i, j + 1) && McuState(g, result, mcu, order, v, |v|)
  {
    hide IsConfig, Asker.Valid, Asker.Ahead, TapeFrom, SegmentState, McuTape, StateAfter, McuState, McuFits, EndOf;
    hide IsOrder;
    McuAhead(g, segs[i], j);
    StateShape(g, mcu, order, v);
    var blocks := LoadBlocks(mcu);
    ok, next := DecodeMcu(a, g, blocks, order, s, v, TapeFrom(g, segs[i], j + 1));
    result := TakeBlocks(blocks);
  }

  lemma StateShape(g: Config, mcu: seq<seq<int>>, order: seq<nat>, v: seq<seq<int>>)
    requires IsZigzag(order) && McuState(g, mcu, mcu, order, v, 0)
    ensures |mcu| == |v| && forall i :: 0 <= i < |mcu| ==> |mcu[i]| == 64
  {
    hide Zigzag, IsOrder, Workable, Left;
  }

  /** A whole scan. */
  method DecodeScan(src: seq<int>, start: nat, g: Config, order: seq<nat>, interval: nat, coefs: seq<seq<seq<int>>>,
                    ghost codes: seq<seq<int>>, ghost vs: seq<seq<seq<int>>>)
    returns (ok: bool, result: seq<seq<seq<int>>>)
    requires GoodScan(g, src, start, codes, vs, interval) && Expected(g, coefs, vs, order)
    ensures ok && |result| == |coefs| && Decoded(g, result, coefs, vs, order)
  {
    hide GoodScan, IsConfig, IsOrder, McuState, SplitBy, SegmentsOf, Inside, ScanAt, AllCoded, McuFits, SegmentState;
    ghost var segs := SegmentsOf(vs, interval);
    result, ok := [], true;
    GoodParts(g, src, start, codes, vs, interval);
    var a := StartSegment(g, src, start, start, codes, segs, 0);
    var state, restarts_to_go, next_restart_num := Initial(g), interval, 0;
    ghost var i: nat, j: nat := 0, 0;
    NothingSplit(vs, interval);
    while |result| < |coefs|
      invariant |result| <= |coefs| && ok && Decoded(g, result, coefs, vs, order) && fresh(a) && fresh(a.d)
      invariant var s := SplitBy(vs[..|result|], interval); i == |s.groups| && j == |s.cur| && restarts_to_go == s.togo
      invariant next_restart_num == i % 8 && i < |segs| == |codes| && j <= |segs[i]|
      invariant Inside(a, g, src, start, codes, segs, state, i, j)
    {
      ghost var n := |result|;
      var mcu := coefs[|result|];
      Here(g, src, start, codes, vs, interval, n);
      if interval > 0 {
        if restarts_to_go == 0 {
          ok, a := ProcessRestart(a, g, next_restart_num, src, start, codes, segs, state, i, j);
          if !ok {
            return;
          }
          state, restarts_to_go := Initial(g), interval;
          next_restart_num := (next_restart_num + 1) % 8;
          i, j := i + 1, 0;
        }
        restarts_to_go := restarts_to_go - 1;
      }
      var one;
      ok, state, one := DecodeHere(a, g, order, mcu, state, vs[n], src, start, codes, segs, i, j);
      if !ok {
        return;
      }
      j := j + 1;
      result := result + [one];
    }
  }

  lemma GoodParts(g: Config, src: seq<int>, start: nat, codes: seq<seq<int>>, vs: seq<seq<seq<int>>>, interval: nat)
    requires GoodScan(g, src, start, codes, vs, interval)
    ensures var segs := SegmentsOf(vs, interval);
      IsConfig(g) && AreSegments(g, segs) && ScanAt(src, start, codes) && AllCoded(g, segs, codes) &&
        |segs| == |codes| > 0
    ensures StartOf(start, codes, 0) == start
  {
    hide IsConfig, ScanAt, SplitBy, SegmentFits;
    assert RestartBytes(codes[..0]) == [];
  }

  /** The round trip of an arithmetic-coded scan of any kind: whatever the MCUs with values the
      coder can express, the restart interval and the bytes around the scan, decoding leaves in
      every block exactly the band known to bit al, and the rest untouched. */
  method CodeAndDecode(mcus: seq<seq<seq<int>>>, coefs: seq<seq<seq<int>>>, g: Config, order: seq<nat>, interval: nat,
                       dest: seq<int>, marker: int, tail: seq<int>)
    returns (ok: bool, result: seq<seq<seq<int>>>)
    requires IsConfig(g) && NaturalMcus(g, mcus) && IsZigzag(order) && 0 < marker < 0xFF
    requires Expected(g, coefs, ZigzagMcus(g, mcus, order), order)
    requires AllFit(g, ZigzagMcus(g, mcus, order), interval)
    ensures ok && |result| == |coefs| && Decoded(g, result, coefs, ZigzagMcus(g, mcus, order), order)
  {
    hide IsConfig, IsOrder, McuState, SplitBy, ScanAt, AllCoded, ScanBytes, ZigzagMcu, SegmentFits, Expected;
    hide InSource, IsBytes;
    ghost var vs := ZigzagMcus(g, mcus, order);
    var out;
    ghost var codes;
    out, codes := EncodeScan(mcus, g, order, interval, dest);
    CodesAreBytes(g, SegmentsOf(vs, interval), codes);
    ScanStarts(|dest|, codes, out + [0xFF, marker] + tail, dest, marker, tail);
    ok, result := DecodeScan(out + [0xFF, marker] + tail, |dest|, g, order, interval, coefs, codes, vs);
  }

  ghost predicate AllFit(g: Config, vs: seq<seq<seq<int>>>, interval: nat)
    requires IsConfig(g) && AreMcus(g, vs)
  {
    SplitMcus(g, vs, interval);
    forall i :: 0 <= i < |SegmentsOf(vs, interval)| ==> SegmentFits(g, SegmentsOf(vs, interval)[i])
  }

  lemma CodesAreBytes(g: Config, segs: seq<seq<seq<seq<int>>>>, codes: seq<seq<int>>)
    requires IsConfig(g) && AreSegments(g, segs) && AllCoded(g, segs, codes)
    ensures forall i :: 0 <= i < |codes| ==> IsBytes(codes[i])
  {
    hide IsConfig, SegmentTape, Run, Spells, IsBytes;
    forall i | 0 <= i < |codes| ensures IsBytes(codes[i]) {
      assert SegmentCoded(g, segs[i], codes[i]);
    }
  }
}
