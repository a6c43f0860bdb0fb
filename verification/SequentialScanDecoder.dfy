/** Decoding sequential and progressive DC scans: MCUs with DC predictions, restarts, and input in any portions. */
module SequentialScanDecoder {
  import opened Numbers
  import opened BitReader
  import opened Tokens
  import opened BandEncoder
  import opened Values
  import opened SequentialPlan
  import opened SequentialEncoder
  import opened BlockArrays
  import opened SequentialDecoder
  import opened DcDecoder
  import opened SequentialScan
  import opened Segments
  import opened Restarts
  import opened ScanReader
  import HuffmanCodes

  /** What decode_mcu for full-size blocks and the progressive DC routines decode. */
  ghost predicate Decodable(f: Form) {
    f.Whole? ==> f.se == LAST
  }

  /** The decoding tables of every component are made from the tables the encoder used; a DC refinement
      needs none. */
  ghost predicate TablesMatch(y: Layout, huffs: seq<HuffmanCodes.Table>, cs: seq<CTable>, ds: seq<DTable>, f: Form) {
    && IsLayout(y) && Decodable(f) && |huffs| == |ds| == 8 && AreCTables(cs)
    && forall ci :: 0 <= ci < |y.dc| ==> TablesFit(y, huffs, cs, ds, f, ci)
  }

  ghost predicate TablesFit(y: Layout, huffs: seq<HuffmanCodes.Table>, cs: seq<CTable>, ds: seq<DTable>, f: Form,
                            ci: nat)
    requires IsLayout(y) && |huffs| == |ds| == |cs| == 8 && ci < |y.dc|
  {
    var d, a := y.dc[ci], 4 + y.ac[ci];
    (f.NextDc? || Matched(huffs[d], cs[d], ds[d])) && (f.Whole? ==> Matched(huffs[a], cs[a], ds[a]))
  }

  /** The tokens of an MCU from block n on. */
  ghost function McuFrom(y: Layout, mcu: seq<seq<int>>, n: nat, last: seq<int>, f: Form): seq<Tagged>
    requires IsLayout(y) && IsForm(f) && IsMcu(y, mcu) && n <= |mcu| && |last| == |y.dc|
    decreases |mcu| - n
  {
    if n == |mcu| then []
    else
      var ci := y.member[n];
      BlockTokens(y, ci, mcu[n], LastsAfter(y, mcu, n, last, f)[ci], f) + McuFrom(y, mcu, n + 1, last, f)
  }

  lemma {:induction false} McuFromIs(y: Layout, mcu: seq<seq<int>>, n: nat, last: seq<int>, f: Form)
    requires IsLayout(y) && IsForm(f) && IsMcu(y, mcu) && n <= |mcu| && |last| == |y.dc|
    ensures McuTokens(y, mcu, n, last, f) + McuFrom(y, mcu, n, last, f) == McuTokens(y, mcu, |mcu|, last, f)
    decreases |mcu| - n
  {
    hide BlockTokens;
    if n < |mcu| {
      McuFromIs(y, mcu, n + 1, last, f);
      Reassociate3(McuTokens(y, mcu, n, last, f),
                   BlockTokens(y, y.member[n], mcu[n], LastsAfter(y, mcu, n, last, f)[y.member[n]], f),
                   McuFrom(y, mcu, n + 1, last, f));
    }
  }

  lemma NextBlock(y: Layout, cs: seq<CTable>, mcu: seq<seq<int>>, n: nat, last: seq<int>, rest: seq<int>, f: Form)
    requires IsLayout(y) && IsForm(f) && IsMcu(y, mcu) && n < |mcu| && |last| == |y.dc| && AreCTables(cs)
    requires AllCoded(cs, McuFrom(y, mcu, n, last, f))
    ensures var ci := y.member[n]; var block := BlockTokens(y, ci, mcu[n], LastsAfter(y, mcu, n, last, f)[ci], f);
      && AllCoded(cs, block) && AllCoded(cs, McuFrom(y, mcu, n + 1, last, f))
      && TaggedBits(cs, McuFrom(y, mcu, n, last, f)) + rest ==
         TaggedBits(cs, block) + (TaggedBits(cs, McuFrom(y, mcu, n + 1, last, f)) + rest)
  {
    hide AllCoded, TaggedBits, BlockTokens;
    var ci, more := y.member[n], McuFrom(y, mcu, n + 1, last, f);
    var block := BlockTokens(y, ci, mcu[n], LastsAfter(y, mcu, n, last, f)[ci], f);
    AllCodedConcat(cs, block, more);
    TaggedBitsConcat(cs, block, more);
  }

  /** The blocks of an MCU (in natural order) when the first n are decoded: each holds at most
      what belongs there, possibly stored by an earlier attempt that was suspended. */
  ghost predicate McuState(now: seq<seq<int>>, was: seq<seq<int>>, order: seq<nat>, v: seq<seq<int>>,
                           limits: seq<nat>, n: nat, f: Form)
    requires IsZigzag(order)
  {
    && |now| == |was| == |v| == |limits|
    && forall i :: 0 <= i < |now| ==> BlockState(now[i], was[i], order, v[i], limits[i], i < n, f)
  }

  ghost predicate BlockState(now: seq<int>, was: seq<int>, order: seq<nat>, v: seq<int>, limit: nat, done: bool,
                             f: Form)
    requires IsZigzag(order)
  {
    && |now| == |was| == |v| == 64
    && match f
       case Whole(_) =>
         && Partial(Zigzag(now, order), v) && (limit == 0 ==> now == was)
         && (done ==> BlockDone(Zigzag(now, order), Zigzag(was, order), v, limit))
       case FirstDc(al) => now[1..] == was[1..] && (done ==> now[0] == Floor(v[0], al) * Pow2(al))
       case NextDc(al) =>
         && now[1..] == was[1..] && (now[0] == was[0] || now[0] == Refined(was[0], v[0], al))
         && (done ==> now[0] == Refined(was[0], v[0], al))
  }

  /** The predictions that matter agree with the encoder's. */
  ghost predicate LastsAgree(last: seq<int>, wanted: seq<int>, needed: seq<bool>) {
    |last| == |wanted| == |needed| && forall ci :: 0 <= ci < |needed| && needed[ci] ==> last[ci] == wanted[ci]
  }

  /** What DecodeBlocks has achieved after n blocks. */
  ghost predicate Progress(reader: Reader, y: Layout, cs: seq<CTable>, v: seq<seq<int>>, l0: seq<int>, n: nat,
                           last: seq<int>, needed: seq<bool>, rest: seq<int>, f: Form)
    requires IsLayout(y) && IsForm(f) && IsMcu(y, v) && n <= |v| && |l0| == |y.dc| && AreCTables(cs)
    reads reader
  {
    && Live(reader) && LastsAgree(last, LastsAfter(y, v, n, l0, f), needed) && AllCoded(cs, McuFrom(y, v, n, l0, f))
    && reader.Ahead() == TaggedBits(cs, McuFrom(y, v, n, l0, f)) + rest
  }

  /** One block, as the scan's MCU routine decodes it, and the next prediction. */
  method DecodeBlockOf(reader: Reader, y: Layout, ci: nat, ds: seq<DTable>, limit: nat, order: seq<nat>, last: int,
                       block: array<int>, f: Form, ghost huffs: seq<HuffmanCodes.Table>, ghost cs: seq<CTable>,
                       ghost v: seq<int>, ghost pred: int, ghost rest: seq<int>, ghost was: seq<int>)
    returns (ok: bool, newLast: int)
    requires TablesMatch(y, huffs, cs, ds, f) && ci < |y.dc| && limit <= 64 && IsZigzag(order) && block.Length == 64
    requires |v| == 64
    requires Live(reader) && BlockInRange(v, pred, f) && AllCoded(cs, BlockTokens(y, ci, v, pred, f))
    requires reader.Ahead() == TaggedBits(cs, BlockTokens(y, ci, v, pred, f)) + rest
    requires if f.Whole? then limit > 0 ==> last == pred else last == pred
    requires BlockState(block[..], was, order, v, limit, false, f)
    modifies block
    modifies reader`pos, reader`marker, reader`get_buffer, reader`bits_left, reader`insufficient, reader`m, reader`held
    ensures Live(reader) && (old(reader.marker) != 0 ==> reader.marker != 0)
    ensures BlockState(block[..], was, order, v, limit, ok, f)
    ensures if ok then && reader.Ahead() == rest
                       && newLast == (if f.Whole? && limit == 0 then last else NextLast(f, v, last))
            else reader.avail < |reader.src| && reader.marker == 0
  {
    hide Live, Matched, Reader.Ahead, TaggedBits, AllCoded, Coded, AllBits, ValueTokens, AcTokens, Zigzag, IsOrder;
    hide Partial;
    hide InRange, BlockDone, IsCTable, AreCTables, Tag, BitLength, Pow2, Floor, Refined;
    TablesAt(y, huffs, cs, ds, ci, f);
    ghost var now := block[..];
    var d, a := y.dc[ci], 4 + y.ac[ci];
    newLast := last;
    match f {
      case Whole(_) =>
        ghost var k0, k1 := ValueTokens(0, v[0] - pred), AcTokens(v, 1, LAST);
        TagBoth(cs, d, k0, a, k1);
        Chain(AllBits(cs[d], k0), AllBits(cs[a], k1), rest);
        ok, newLast := DecodeBlock(reader, ds[d], ds[a], limit, last, block, order, huffs[d], cs[d], huffs[a], cs[a], v,
                                   pred, rest);
        WholeStep(block[..], now, was, order, v, limit, ok);
      case FirstDc(al) =>
        TagCoded(cs, d, ValueTokens(0, Floor(v[0], al) - pred));
        TagBits(cs, d, ValueTokens(0, Floor(v[0], al) - pred));
        ok, newLast := DecodeDcFirst(reader, ds[d], last, block, al, huffs[d], cs[d], v[0], rest);
      case NextDc(al) =>
        RawTagged(cs, Floor(v[0], al));
        ok := DecodeDcRefine(reader, block, al, v[0], rest);
        RefinedTwice(was[0], v[0], al);
    }
  }

  lemma Chain(a: seq<int>, b: seq<int>, c: seq<int>)
    ensures a + b + c == a + (b + c)
  {
  }

  lemma WholeStep(x: seq<int>, now: seq<int>, was: seq<int>, order: seq<nat>, v: seq<int>, limit: nat, ok: bool)
    requires IsZigzag(order) && BlockState(now, was, order, v, limit, false, Whole(LAST)) && |x| == 64
    requires Partial(Zigzag(x, order), v) && (limit == 0 ==> x == now)
    requires ok ==> BlockDone(Zigzag(x, order), Zigzag(now, order), v, limit)
    ensures BlockState(x, was, order, v, limit, ok, Whole(LAST))
  {
    hide Partial, IsOrder, Zigzag, DecodedTo;
  }

  /** One block of an MCU. */
  method DecodeNext(reader: Reader, y: Layout, ds: seq<DTable>, limits: seq<nat>, order: seq<nat>, last: seq<int>,
                    blocks: seq<array<int>>, n: nat, f: Form, ghost needed: seq<bool>,
                    ghost huffs: seq<HuffmanCodes.Table>, ghost cs: seq<CTable>, ghost v: seq<seq<int>>,
                    ghost l0: seq<int>, ghost rest: seq<int>, ghost was: seq<seq<int>>)
    returns (ok: bool, newLast: seq<int>)
    requires TablesMatch(y, huffs, cs, ds, f) && IsZigzag(order) && AreArrays(blocks, |y.member|) && IsMcu(y, v)
    requires n < |v|
    requires |l0| == |y.dc| == |needed| && LimitsFit(y, limits, needed, f)
    requires Progress(reader, y, cs, v, l0, n, last, needed, rest, f)
    requires McuInRange(y, v, |v|, l0, f) && McuState(Contents(blocks), was, order, v, limits, n, f)
    modifies blocks[n]
    modifies reader`pos, reader`marker, reader`get_buffer, reader`bits_left, reader`insufficient, reader`m, reader`held
    ensures Live(reader) && (old(reader.marker) != 0 ==> reader.marker != 0)
    ensures McuState(Contents(blocks), was, order, v, limits, if ok then n + 1 else n, f)
    ensures if ok then Progress(reader, y, cs, v, l0, n + 1, newLast, needed, rest, f)
            else reader.avail < |reader.src| && reader.marker == 0
  {
    hide Live, Matched, Reader.Ahead, TaggedBits, AllCoded, IsOrder, BlockInRange, NextLast, BlockState;
    hide BlockTokens, McuFrom, AreCTables, McuState, McuInRange, TablesMatch, LastsAfter;
    LayoutOf(y, huffs, cs, ds, f);
    var ci := y.member[n];
    NextBlock(y, cs, v, n, l0, rest, f);
    RangeAt(y, v, n, l0, f);
    ghost var now := Contents(blocks);
    StateAt(now, was, order, v, limits, n, f);
    var dc;
    newLast := last;
    ok, dc := DecodeBlockOf(reader, y, ci, ds, limits[n], order, last[ci], blocks[n], f, huffs, cs,
      v[n], LastsAfter(y, v, n, l0, f)[ci], TaggedBits(cs, McuFrom(y, v, n + 1, l0, f)) + rest, was[n]);
    assert Contents(blocks) == now[n := blocks[n][..]];
    StateStep(now, was, order, v, limits, n, blocks[n][..], ok, f);
    if ok {
      newLast := last[ci := dc];
    }
  }

  lemma LayoutOf(y: Layout, huffs: seq<HuffmanCodes.Table>, cs: seq<CTable>, ds: seq<DTable>, f: Form)
    requires TablesMatch(y, huffs, cs, ds, f)
    ensures IsLayout(y) && IsForm(f) && AreCTables(cs) && forall i :: 0 <= i < |y.member| ==> y.member[i] < |y.dc|
  {
    hide Matched;
  }

  lemma TablesAt(y: Layout, huffs: seq<HuffmanCodes.Table>, cs: seq<CTable>, ds: seq<DTable>, ci: nat, f: Form)
    requires TablesMatch(y, huffs, cs, ds, f) && ci < |y.dc|
    ensures IsLayout(y) && Decodable(f) && AreCTables(cs) && |huffs| == |ds| == |cs| == 8 && |y.dc| == |y.ac|
    ensures var d, a := y.dc[ci], 4 + y.ac[ci];
      && d < 8 && a < 8 && IsCTable(cs[d]) && IsCTable(cs[a])
      && (f.NextDc? || Matched(huffs[d], cs[d], ds[d])) && (f.Whole? ==> Matched(huffs[a], cs[a], ds[a]))
  {
    hide Matched;
    assert TablesFit(y, huffs, cs, ds, f, ci);
  }

  lemma RangeAt(y: Layout, v: seq<seq<int>>, n: nat, l0: seq<int>, f: Form)
    requires IsLayout(y) && IsForm(f) && IsMcu(y, v) && n < |v| && |l0| == |y.dc| && McuInRange(y, v, |v|, l0, f)
    ensures var l, ci := LastsAfter(y, v, n, l0, f), y.member[n];
      BlockInRange(v[n], l[ci], f) && LastsAfter(y, v, n + 1, l0, f) == l[ci := NextLast(f, v[n], l[ci])]
  {
    hide BlockInRange;
  }

  lemma StateAt(now: seq<seq<int>>, was: seq<seq<int>>, order: seq<nat>, v: seq<seq<int>>, limits: seq<nat>, n: nat,
                f: Form)
    requires IsZigzag(order) && McuState(now, was, order, v, limits, n, f) && n < |now|
    ensures |now| == |was| == |v| == |limits| && BlockState(now[n], was[n], order, v[n], limits[n], false, f)
  {
    hide BlockState;
  }

  lemma StateStep(now: seq<seq<int>>, was: seq<seq<int>>, order: seq<nat>, v: seq<seq<int>>, limits: seq<nat>, n: nat,
                  x: seq<int>, ok: bool, f: Form)
    requires IsZigzag(order) && McuState(now, was, order, v, limits, n, f) && n < |now|
    requires BlockState(x, was[n], order, v[n], limits[n], ok, f)
    ensures McuState(now[n := x], was, order, v, limits, if ok then n + 1 else n, f)
  {
    hide BlockState;
  }

  /** coef_limit is zero exactly for the blocks of components that are not needed; the progressive routines
      decode every component. */
  ghost predicate LimitsFit(y: Layout, limits: seq<nat>, needed: seq<bool>, f: Form) {
    && IsLayout(y) && |limits| == |y.member| && |needed| == |y.dc|
    && (forall i :: 0 <= i < |limits| ==> limits[i] <= 64 && (limits[i] > 0 <==> needed[y.member[i]]))
    && (f.Whole? || forall c :: 0 <= c < |needed| ==> needed[c])
  }

  /** The blocks of one MCU, on the working state. */
  method DecodeBlocks(reader: Reader, y: Layout, ds: seq<DTable>, limits: seq<nat>, order: seq<nat>,
                      last_dc_val: seq<int>, blocks: seq<array<int>>, f: Form, ghost needed: seq<bool>,
                      ghost huffs: seq<HuffmanCodes.Table>, ghost cs: seq<CTable>, ghost v: seq<seq<int>>,
                      ghost l0: seq<int>, ghost rest: seq<int>, ghost was: seq<seq<int>>)
    returns (ok: bool, last: seq<int>)
    requires TablesMatch(y, huffs, cs, ds, f) && IsZigzag(order) && AreArrays(blocks, |y.member|) && IsMcu(y, v)
    requires |l0| == |y.dc| == |needed| && LimitsFit(y, limits, needed, f)
    requires Progress(reader, y, cs, v, l0, 0, last_dc_val, needed, rest, f)
    requires McuInRange(y, v, |v|, l0, f) && McuState(Contents(blocks), was, order, v, limits, 0, f)
    modifies blocks
    modifies reader`pos, reader`marker, reader`get_buffer, reader`bits_left, reader`insufficient, reader`m, reader`held
    ensures Live(reader) && (old(reader.marker) != 0 ==> reader.marker != 0)
    ensures McuState(Contents(blocks), was, order, v, limits, if ok then |v| else 0, f)
    ensures if ok then Progress(reader, y, cs, v, l0, |v|, last, needed, rest, f)
            else reader.avail < |reader.src| && reader.marker == 0
  {
    hide Matched, IsOrder, McuInRange, McuState, Progress, IsCTable;
    last, ok := last_dc_val, true;
    ProgressIsLive(reader, y, cs, v, l0, 0, last, needed, rest, f);
    for blkn := 0 to |blocks|
      invariant Live(reader) && (old(reader.marker) != 0 ==> reader.marker != 0)
      invariant Progress(reader, y, cs, v, l0, blkn, last, needed, rest, f)
      invariant McuState(Contents(blocks), was, order, v, limits, blkn, f)
    {
      ok, last := DecodeNext(reader, y, ds, limits, order, last, blocks, blkn, f, needed, huffs, cs, v, l0, rest, was);
      if !ok {
        StateForget(Contents(blocks), was, order, v, limits, blkn, f);
        return;
      }
    }
  }

  lemma ProgressIsLive(reader: Reader, y: Layout, cs: seq<CTable>, v: seq<seq<int>>, l0: seq<int>, n: nat,
                       last: seq<int>, needed: seq<bool>, rest: seq<int>, f: Form)
    requires IsLayout(y) && IsForm(f) && IsMcu(y, v) && n <= |v| && |l0| == |y.dc| && AreCTables(cs)
    requires Progress(reader, y, cs, v, l0, n, last, needed, rest, f)
    ensures Live(reader) && |last| == |needed|
  {
    hide Live, TaggedBits, McuFrom, AllCoded;
  }

  lemma StateForget(now: seq<seq<int>>, was: seq<seq<int>>, order: seq<nat>, v: seq<seq<int>>, limits: seq<nat>,
                    n: nat, f: Form)
    requires IsZigzag(order) && McuState(now, was, order, v, limits, n, f)
    ensures McuState(now, was, order, v, limits, 0, f)
  {
    hide Partial, IsOrder, Zigzag, BlockDone;
  }

  // Scans -----------------------------------------------------------------------------------

  /** The bits of each MCU of a segment. */
  ghost function McuBits(y: Layout, cs: seq<CTable>, mcus: seq<seq<seq<int>>>, f: Form): (r: seq<seq<int>>)
    requires IsLayout(y) && IsForm(f) && AreMcus(y, mcus) && AreCTables(cs)
    ensures |r| == |mcus|
    ensures forall j :: 0 <= j < |r| ==>
      AreMcus(y, mcus[..j]) && r[j] == TaggedBits(cs, McuTokens(y, mcus[j], |mcus[j]|, Lasts(y, mcus[..j], f), f))
  {
    seq(|mcus|,
        j requires 0 <= j < |mcus| => TaggedBits(cs, McuTokens(y, mcus[j], |mcus[j]|, Lasts(y, mcus[..j], f), f)))
  }

  lemma {:induction false} McuBitsJoin(y: Layout, cs: seq<CTable>, mcus: seq<seq<seq<int>>>, f: Form)
    requires IsLayout(y) && IsForm(f) && AreMcus(y, mcus) && AreCTables(cs)
    ensures Concat(McuBits(y, cs, mcus, f)) == TaggedBits(cs, SegmentTokens(y, mcus, f))
  {
    hide TaggedBits, McuTokens, Lasts, AreCTables, IsLayout;
    var n := |mcus| - 1;
    if n < 0 {
      NothingTagged(cs);
    } else {
      McuBitsJoin(y, cs, mcus[..n], f);
      TaggedBitsConcat(cs, SegmentTokens(y, mcus[..n], f), McuTokens(y, mcus[n], |mcus[n]|, Lasts(y, mcus[..n], f), f));
      McuBitsPrefix(y, cs, mcus, f);
    }
  }

  lemma McuBitsPrefix(y: Layout, cs: seq<CTable>, mcus: seq<seq<seq<int>>>, f: Form)
    requires IsLayout(y) && IsForm(f) && AreMcus(y, mcus) && AreCTables(cs) && |mcus| > 0
    ensures McuBits(y, cs, mcus, f)[..|mcus| - 1] == McuBits(y, cs, mcus[..|mcus| - 1], f)
  {
    hide TaggedBits, McuTokens, Lasts, AreCTables, IsLayout;
    var n := |mcus| - 1;
    forall j | 0 <= j < n ensures McuBits(y, cs, mcus, f)[j] == McuBits(y, cs, mcus[..n], f)[j] {
      assert mcus[..n][..j] == mcus[..j];
    }
  }

  ghost function PlanBits(y: Layout, cs: seq<CTable>, groups: seq<seq<seq<seq<int>>>>, f: Form): (r: seq<seq<seq<int>>>)
    requires IsLayout(y) && IsForm(f) && AreSegments(y, groups) && AreCTables(cs)
    ensures |r| == |groups| && forall g :: 0 <= g < |r| ==> r[g] == McuBits(y, cs, groups[g], f)
  {
    seq(|groups|, g requires 0 <= g < |groups| => McuBits(y, cs, groups[g], f))
  }

  /** The scan the decoder reads is that of these MCUs. */
  ghost predicate GoodScan(p: Plan<seq<seq<int>>>, y: Layout, cs: seq<CTable>, src: seq<int>, f: Form) {
    && IsLayout(y) && IsForm(f) && AreCTables(cs) && AreMcus(y, p.xs) && AreSegments(y, SegmentsOf(p.xs, p.interval))
    && GoodPlan(p, src)
    && p.bits == PlanBits(y, cs, SegmentsOf(p.xs, p.interval), f)
    && AllCoded(cs, ScanTokens(y, p.xs, p.interval, f)) && ScanInRange(y, p.xs, p.interval, f)
  }

  /** What an encoder leaves behind is a good scan. */
  lemma EncodedIsGood(p: Plan<seq<seq<int>>>, y: Layout, cs: seq<CTable>, src: seq<int>, f: Form)
    requires IsLayout(y) && IsForm(f) && AreCTables(cs) && AreMcus(y, p.xs)
    requires AreSegments(y, SegmentsOf(p.xs, p.interval))
    requires ScanAt(src, p.start, p.codes) && ScanCoded(y, cs, p.xs, p.interval, f, p.codes)
    requires p.bits == PlanBits(y, cs, SegmentsOf(p.xs, p.interval), f)
    requires AllCoded(cs, ScanTokens(y, p.xs, p.interval, f)) && ScanInRange(y, p.xs, p.interval, f)
    ensures GoodScan(p, y, cs, src, f)
  {
    hide AllCoded, TaggedBits, SegmentTokens, SplitBy, ScanAt, Padded, ScanTokens, ScanInRange, IsLayout, AreCTables;
    hide McuBits;
    var groups := SegmentsOf(p.xs, p.interval);
    forall g | 0 <= g < |p.bits| ensures Padded(p.codes[g], Concat(p.bits[g])) {
      McuBitsJoin(y, cs, groups[g], f);
    }
  }

  lemma {:induction false} TokensAround(y: Layout, groups: seq<seq<seq<seq<int>>>>, g: nat, f: Form)
    returns (before: seq<Tagged>, after: seq<Tagged>)
    requires IsLayout(y) && IsForm(f) && AreSegments(y, groups) && g < |groups|
    ensures AllTokens(y, groups, f) == before + SegmentTokens(y, groups[g], f) + after
  {
    hide SegmentTokens, IsLayout;
    var n := |groups| - 1;
    if g == n {
      before, after := AllTokens(y, groups[..n], f), [];
    } else {
      before, after := TokensAround(y, groups[..n], g, f);
      after := after + SegmentTokens(y, groups[n], f);
    }
  }

  lemma {:induction false} McusAround(y: Layout, mcus: seq<seq<seq<int>>>, j: nat, f: Form)
    returns (before: seq<Tagged>, after: seq<Tagged>)
    requires IsLayout(y) && IsForm(f) && AreMcus(y, mcus) && j < |mcus|
    ensures SegmentTokens(y, mcus, f) == before + McuTokens(y, mcus[j], |mcus[j]|, Lasts(y, mcus[..j], f), f) + after
  {
    hide McuTokens, IsLayout, Lasts;
    var n := |mcus| - 1;
    if j == n {
      before, after := SegmentTokens(y, mcus[..n], f), [];
    } else {
      before, after := McusAround(y, mcus[..n], j, f);
      assert mcus[..n][..j] == mcus[..j];
      after := after + McuTokens(y, mcus[n], |mcus[n]|, Lasts(y, mcus[..n], f), f);
    }
  }

  /** MCU j of segment g, after the first j. */
  lemma McuAhead(p: Plan<seq<seq<int>>>, y: Layout, cs: seq<CTable>, src: seq<int>, g: nat, j: nat, f: Form)
    requires GoodScan(p, y, cs, src, f) && g < |p.bits| && j < |p.bits[g]|
    ensures g < |SegmentsOf(p.xs, p.interval)| && j < |SegmentsOf(p.xs, p.interval)[g]|
    ensures var seg := SegmentsOf(p.xs, p.interval)[g]; var v := seg[j];
      && IsLayout(y) && IsForm(f) && AreCTables(cs) && AreMcus(y, seg) && AreMcus(y, seg[..j])
      && AreMcus(y, seg[..j + 1]) && IsMcu(y, v)
      && var last := Lasts(y, seg[..j], f);
         && McuInRange(y, v, |v|, last, f) && AllCoded(cs, McuFrom(y, v, 0, last, f))
         && p.bits[g][j] == TaggedBits(cs, McuFrom(y, v, 0, last, f))
         && Lasts(y, seg[..j + 1], f) == LastsAfter(y, v, |v|, last, f)
  {
    hide AllCoded, TaggedBits, SplitBy, GoodPlan, IsLayout, AreCTables, McuInRange, LastsAfter, McuTokens, McuFrom;
    hide IsForm;
    var groups := SegmentsOf(p.xs, p.interval);
    var seg := groups[g];
    var v, last := seg[j], Lasts(y, seg[..j], f);
    McuFromIs(y, v, 0, last, f);
    assert [] + McuFrom(y, v, 0, last, f) == McuFrom(y, v, 0, last, f);
    NoMcuTokens(y, v, last, f);
    assert seg[..j + 1][..j] == seg[..j];
    var b1, a1 := TokensAround(y, groups, g, f);
    var b2, a2 := McusAround(y, seg, j, f);
    AllCodedConcat(cs, b1 + SegmentTokens(y, seg, f), a1);
    AllCodedConcat(cs, b1, SegmentTokens(y, seg, f));
    AllCodedConcat(cs, b2 + McuFrom(y, v, 0, last, f), a2);
    AllCodedConcat(cs, b2, McuFrom(y, v, 0, last, f));
  }

  lemma NoMcuTokens(y: Layout, v: seq<seq<int>>, last: seq<int>, f: Form)
    requires IsLayout(y) && IsForm(f) && IsMcu(y, v) && |last| == |y.dc|
    ensures McuTokens(y, v, 0, last, f) == []
  {
  }
}
