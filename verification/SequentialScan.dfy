/** Sequential scans and progressive DC scans: MCU by MCU with DC predictions and restarts, in both passes. */
module SequentialScan {
  import opened Numbers
  import opened Bits
  import opened ByteStuffing
  import opened BitWriter
  import opened Tokens
  import opened BandEncoder
  import opened Values
  import opened SequentialPlan
  import opened SequentialEncoder
  import opened DcEncoder
  import opened Segments
  import opened Restarts

  /** The zigzag view of an MCU's blocks. */
  ghost function ZigzagMcu(mcu: seq<seq<int>>, order: seq<nat>): (r: seq<seq<int>>)
    requires IsZigzag(order) && forall i :: 0 <= i < |mcu| ==> |mcu[i]| == 64
    ensures |r| == |mcu| && forall i :: 0 <= i < |r| ==> r[i] == Zigzag(mcu[i], order) && |r[i]| == 64
  {
    seq(|mcu|, i requires 0 <= i < |mcu| => Zigzag(mcu[i], order))
  }

  /** The tokens of a whole scan, segment by segment. */
  ghost predicate AreSegments(y: Layout, groups: seq<seq<seq<seq<int>>>>) {
    forall g :: 0 <= g < |groups| ==> AreMcus(y, groups[g])
  }

  ghost function AllTokens(y: Layout, groups: seq<seq<seq<seq<int>>>>, f: Form): seq<Tagged>
    requires IsLayout(y) && AreSegments(y, groups) && IsForm(f)
  {
    var n := |groups| - 1;
    if n < 0 then [] else AllTokens(y, groups[..n], f) + SegmentTokens(y, groups[n], f)
  }

  lemma AllTokensSnoc(y: Layout, groups: seq<seq<seq<seq<int>>>>, cur: seq<seq<seq<int>>>, f: Form)
    requires IsLayout(y) && AreSegments(y, groups) && AreMcus(y, cur) && IsForm(f)
    ensures AreSegments(y, groups + [cur])
    ensures AllTokens(y, groups + [cur], f) == AllTokens(y, groups, f) + SegmentTokens(y, cur, f)
  {
    assert (groups + [cur])[..|groups|] == groups;
  }

  lemma SegmentSnoc(y: Layout, cur: seq<seq<seq<int>>>, mcu: seq<seq<int>>, f: Form)
    requires IsLayout(y) && AreMcus(y, cur) && IsMcu(y, mcu) && IsForm(f)
    ensures AreMcus(y, cur + [mcu])
    ensures SegmentTokens(y, cur + [mcu], f) == SegmentTokens(y, cur, f) + McuTokens(y, mcu, |mcu|, Lasts(y, cur, f), f)
    ensures Lasts(y, cur + [mcu], f) == LastsAfter(y, mcu, |mcu|, Lasts(y, cur, f), f)
    ensures SegmentInRange(y, cur + [mcu], f) <==>
            SegmentInRange(y, cur, f) && McuInRange(y, mcu, |mcu|, Lasts(y, cur, f), f)
  {
    hide McuTokens, LastsAfter, McuInRange;
    var all := cur + [mcu];
    assert all[..|cur|] == cur;
    if SegmentInRange(y, all, f) {
      assert McuInRange(y, all[|cur|], |all[|cur|]|, Lasts(y, all[..|cur|], f), f);
      forall n | 0 <= n < |cur| ensures McuInRange(y, cur[n], |cur[n]|, Lasts(y, cur[..n], f), f) {
        assert all[..n] == cur[..n] && all[n] == cur[n];
      }
    }
    if SegmentInRange(y, cur, f) && McuInRange(y, mcu, |mcu|, Lasts(y, cur, f), f) {
      forall n | 0 <= n < |all| ensures McuInRange(y, all[n], |all[n]|, Lasts(y, all[..n], f), f) {
        if n < |cur| {
          assert all[..n] == cur[..n];
        }
      }
    }
  }

  lemma EmptySegment(y: Layout, f: Form)
    requires IsLayout(y) && IsForm(f)
    ensures AreMcus(y, []) && SegmentTokens(y, [], f) == [] && Lasts(y, [], f) == seq(|y.dc|, _ => 0)
    ensures SegmentInRange(y, [], f)
  {
  }

  // The output pass -------------------------------------------------------------------------

  class Output {
    const writer: Writer
    const layout: Layout
    const tables: seq<CTable>
    const order: seq<nat>
    const form: Form
    const restart_interval: nat
    var last_dc_val: seq<int>
    var restarts_to_go: nat
    var next_restart_num: nat

    /** The finished segments and their data, and the MCUs of the current one. */
    ghost var groups: seq<seq<seq<seq<int>>>>
    ghost var codes: seq<seq<int>>
    ghost var cur: seq<seq<seq<int>>>
    ghost const start: seq<int>

    ghost predicate Finished()
      requires IsLayout(layout) && AreCTables(tables) && IsForm(form)
      reads `groups, `codes, writer`prior
    {
      && AreSegments(layout, groups) && |codes| == |groups| && writer.prior == start + RestartBytes(codes)
      && forall g :: 0 <= g < |codes| ==> Padded(codes[g], TaggedBits(tables, SegmentTokens(layout, groups[g], form)))
    }

    ghost predicate Fixed() {
      IsLayout(layout) && AreCTables(tables) && IsZigzag(order) && IsForm(form)
    }

    ghost predicate Valid()
      reads this, writer
    {
      && Fixed() && writer.Valid() && Finished() && AreMcus(layout, cur) && next_restart_num == |groups| % 8
      && last_dc_val == Lasts(layout, cur, form)
      && writer.Written() == TaggedBits(tables, SegmentTokens(layout, cur, form))
    }

    constructor (y: Layout, cs: seq<CTable>, natural_order: seq<nat>, f: Form, interval: nat, dest: seq<int>)
      requires IsLayout(y) && AreCTables(cs) && IsZigzag(natural_order) && IsForm(f)
      ensures Valid() && groups == [] && cur == [] && restarts_to_go == restart_interval == interval && start == dest
      ensures layout == y && tables == cs && order == natural_order && form == f && fresh(writer)
    {
      writer := new Writer(dest);
      layout, tables, order, form, restart_interval := y, cs, natural_order, f, interval;
      last_dc_val, restarts_to_go, next_restart_num := seq(|y.dc|, _ => 0), interval, 0;
      groups, codes, cur, start := [], [], [], dest;
      new;
      EmptySegment(layout, form);
    }

    /** emit_restart. */
    method EmitRestart(restart_num: nat)
      requires Valid() && restart_num == |groups| % 8
      modifies `last_dc_val, `groups, `codes, `cur, writer
      ensures Fixed() && writer.Valid() && Finished() && groups == old(groups) + [old(cur)] && cur == []
      ensures last_dc_val == Lasts(layout, cur, form)
      ensures writer.Written() == TaggedBits(tables, SegmentTokens(layout, cur, form))
    {
      hide TaggedBits, SegmentTokens, RestartBytes, Padded, Ended, Stuff, ByteBits, Writer.Valid, Lasts, AreMcus;
      ghost var n: nat := (8 - writer.put_bits) % 8;
      FewHeld();
      writer.Flush();
      ghost var data, all := writer.data, codes;
      assert ByteBits(data) + [] == ByteBits(data);
      WrittenBytes(data);
      PaddedBy(data, TaggedBits(tables, SegmentTokens(layout, cur, form)), n);
      writer.EmitMarker(RST0 + restart_num);
      RestartSnoc(all, data);
      EndedIs(start, RestartBytes(all), data, |all|);
      groups, codes, cur := groups + [cur], codes + [data], [];
      last_dc_val := seq(|layout.dc|, _ => 0);
      EmptySegment(layout, form);
      assert TaggedBits(tables, []) == [] by { NoTagged(tables, []); }
    }

    /** The blocks of one MCU; stops at a value out of range or a missing code. */
    method EncodeBlocks(mcu: seq<seq<int>>) returns (ok: bool)
      requires Fixed() && writer.Valid() && |last_dc_val| == |layout.dc| && IsMcu(layout, mcu)
      modifies writer, `last_dc_val
      ensures writer.Valid() && writer.prior == old(writer.prior)
      ensures var v := ZigzagMcu(mcu, order);
        && (ok <==> McuInRange(layout, v, |v|, old(last_dc_val), form) &&
                    AllCoded(tables, McuTokens(layout, v, |v|, old(last_dc_val), form)))
        && (ok ==> last_dc_val == LastsAfter(layout, v, |v|, old(last_dc_val), form) &&
                   writer.Written() == old(writer.Written()) +
                                       TaggedBits(tables, McuTokens(layout, v, |v|, old(last_dc_val), form)))
    {
      hide Progress, AllCoded, McuTokens, LastsAfter, McuInRange, Zigzag, Writer.Valid, Writer.Written, TaggedBits;
      ghost var v, l0, w0 := ZigzagMcu(mcu, order), last_dc_val, writer.Written();
      NoProgress(v, l0, w0);
      for blkn := 0 to |mcu|
        invariant |last_dc_val| == |layout.dc| && Progress(v, blkn, l0, w0) && writer.prior == old(writer.prior)
      {
        ok := EncodeNext(mcu, blkn, v, l0, w0);
        if !ok {
          PrefixCoded(layout, tables, v, blkn + 1, |v|, l0, form);
          RangePrefix(layout, v, blkn + 1, l0, form);
          return;
        }
      }
      AllProgress(v, l0, w0);
      ok := true;
    }

    /** The first n blocks of an MCU have been written. */
    ghost predicate Progress(v: seq<seq<int>>, n: nat, l0: seq<int>, w0: seq<int>)
      requires Fixed() && IsMcu(layout, v) && n <= |v| && |l0| == |layout.dc|
      reads `last_dc_val, writer
    {
      && writer.Valid() && last_dc_val == LastsAfter(layout, v, n, l0, form) && McuInRange(layout, v, n, l0, form)
      && AllCoded(tables, McuTokens(layout, v, n, l0, form))
      && writer.Written() == w0 + TaggedBits(tables, McuTokens(layout, v, n, l0, form))
    }

    lemma NoProgress(v: seq<seq<int>>, l0: seq<int>, w0: seq<int>)
      requires Fixed() && writer.Valid() && IsMcu(layout, v) && l0 == last_dc_val && |l0| == |layout.dc|
      requires w0 == writer.Written()
      ensures Progress(v, 0, l0, w0)
    {
      hide Writer.Valid, Writer.Written, TaggedBits, AllCoded;
      NothingTagged(tables);
    }

    lemma AllProgress(v: seq<seq<int>>, l0: seq<int>, w0: seq<int>)
      requires Fixed() && IsMcu(layout, v) && |l0| == |layout.dc| && Progress(v, |v|, l0, w0)
      ensures writer.Valid() && last_dc_val == LastsAfter(layout, v, |v|, l0, form)
      ensures McuInRange(layout, v, |v|, l0, form)
      ensures AllCoded(tables, McuTokens(layout, v, |v|, l0, form))
      ensures writer.Written() == w0 + TaggedBits(tables, McuTokens(layout, v, |v|, l0, form))
    {
      hide Writer.Valid, Writer.Written, TaggedBits, AllCoded;
    }

    /** One block, and its DC value as the next prediction. */
    method EncodeNext(mcu: seq<seq<int>>, blkn: nat, ghost v: seq<seq<int>>, ghost l0: seq<int>, ghost w0: seq<int>)
      returns (ok: bool)
      requires Fixed() && IsMcu(layout, mcu) && v == ZigzagMcu(mcu, order) && blkn < |mcu|
      requires |l0| == |last_dc_val| == |layout.dc| && Progress(v, blkn, l0, w0)
      modifies writer, `last_dc_val
      ensures writer.Valid() && writer.prior == old(writer.prior) && |last_dc_val| == |layout.dc|
      ensures ok <==>
              McuInRange(layout, v, blkn + 1, l0, form) && AllCoded(tables, McuTokens(layout, v, blkn + 1, l0, form))
      ensures ok ==> Progress(v, blkn + 1, l0, w0)
    {
      hide Writer.Valid, Writer.Written, TaggedBits, BlockInRange, AllCoded, Zigzag, McuTokens, AreCTables, IsZigzag;
      hide BlockTokens, McuInRange, NextLast;
      var ci := layout.member[blkn];
      BlockCoded(layout, tables, v, blkn, l0, form);
      RangeStep(layout, v, blkn, l0, form);
      ghost var block := BlockTokens(layout, ci, v[blkn], last_dc_val[ci], form);
      var next;
      ok, next := EncodeBlock(writer, layout, ci, mcu[blkn], last_dc_val[ci], tables, order, form);
      if ok {
        last_dc_val := last_dc_val[ci := next];
      }
    }

    /** encode_mcu_huff, encode_mcu_DC_first or encode_mcu_DC_refine. */
    method Encode(mcu: seq<seq<int>>) returns (ok: bool)
      requires Valid() && IsMcu(layout, mcu)
      modifies this, writer
      ensures var v, restart := ZigzagMcu(mcu, order), restart_interval > 0 && old(restarts_to_go) == 0;
        var last := Lasts(layout, if restart then [] else old(cur), form);
        && (ok <==> McuInRange(layout, v, |v|, last, form) && AllCoded(tables, McuTokens(layout, v, |v|, last, form)))
        && (ok ==> Valid() && cur == (if restart then [] else old(cur)) + [v]
                   && groups == old(groups) + (if restart then [old(cur)] else [])
                   && restarts_to_go == if restart_interval == 0 then old(restarts_to_go)
                                        else if restart then restart_interval - 1 else old(restarts_to_go) - 1)
    {
      hide Writer.Valid, Writer.Written, TaggedBits, AllCoded, McuInRange, McuTokens, Lasts, LastsAfter, Finished;
      hide SegmentTokens, SegmentInRange, AreSegments;
      if restart_interval > 0 {
        if restarts_to_go == 0 {
          EmitRestart(next_restart_num);
        }
      }
      ghost var v, before := ZigzagMcu(mcu, order), cur;
      ok := EncodeBlocks(mcu);
      if !ok {
        return;
      }
      SegmentSnoc(layout, before, v, form);
      TaggedBitsConcat(tables, SegmentTokens(layout, before, form),
                       McuTokens(layout, v, |v|, Lasts(layout, before, form), form));
      cur := cur + [v];
      if restart_interval > 0 {
        if restarts_to_go == 0 {
          restarts_to_go := restart_interval;
          next_restart_num := next_restart_num + 1;
          next_restart_num := next_restart_num % 8;
        }
        restarts_to_go := restarts_to_go - 1;
      }
    }

    /** finish_pass. */
    method Finish()
      requires Valid()
      modifies writer
      ensures Fixed() && Finished() && writer.out == ScanBytes(start, codes, writer.data)
      ensures Padded(writer.data, TaggedBits(tables, SegmentTokens(layout, cur, form)))
    {
      hide TaggedBits, SegmentTokens, RestartBytes, Padded, Stuff, ByteBits, Lasts, AreMcus;
      ghost var n: nat := (8 - writer.put_bits) % 8;
      writer.Flush();
      assert writer.held == [] && ByteBits(writer.data) + [] == ByteBits(writer.data);
      PaddedBy(writer.data, TaggedBits(tables, SegmentTokens(layout, cur, form)), n);
    }

    lemma FewHeld()
      requires writer.Valid()
      ensures 0 <= writer.put_bits <= 7
    {
    }

    lemma WrittenBytes(data: seq<int>)
      requires writer.Valid() && data == writer.data
      ensures IsBytes(data)
    {
    }
  }

  lemma NothingTagged(cs: seq<CTable>)
    requires AreCTables(cs)
    ensures TaggedBits(cs, []) == [] && AllCoded(cs, [])
  {
  }

  lemma RangeStep(y: Layout, mcu: seq<seq<int>>, n: nat, last: seq<int>, f: Form)
    requires IsLayout(y) && IsMcu(y, mcu) && n < |mcu| && |last| == |y.dc| && IsForm(f)
    ensures McuInRange(y, mcu, n + 1, last, f) <==>
            McuInRange(y, mcu, n, last, f) && BlockInRange(mcu[n], LastsAfter(y, mcu, n, last, f)[y.member[n]], f)
  {
    hide BlockInRange, LastsAfter;
  }

  lemma RangePrefix(y: Layout, mcu: seq<seq<int>>, n: nat, last: seq<int>, f: Form)
    requires IsLayout(y) && IsMcu(y, mcu) && n <= |mcu| && |last| == |y.dc| && IsForm(f)
    ensures McuInRange(y, mcu, |mcu|, last, f) ==> McuInRange(y, mcu, n, last, f)
  {
    hide BlockInRange, LastsAfter;
  }

  lemma TablesAre(cs: seq<CTable>, dc: nat, ac: nat)
    requires AreCTables(cs) && dc < 4 && ac < 4
    ensures |cs| == 8 && IsCTable(cs[dc]) && IsCTable(cs[4 + ac])
  {
  }

  lemma DcFirst(order: seq<nat>, block: seq<int>)
    requires IsZigzag(order) && |block| == 64
    ensures IsOrder(order) && Zigzag(block, order)[0] == block[0]
  {
  }

  /** What block n adds to its MCU's tokens. */
  lemma BlockCoded(y: Layout, cs: seq<CTable>, mcu: seq<seq<int>>, n: nat, last: seq<int>, f: Form)
    requires IsLayout(y) && AreCTables(cs) && IsMcu(y, mcu) && n < |mcu| && |last| == |y.dc| && IsForm(f)
    ensures var ci := y.member[n]; var block := BlockTokens(y, ci, mcu[n], LastsAfter(y, mcu, n, last, f)[ci], f);
      && (AllCoded(cs, McuTokens(y, mcu, n + 1, last, f)) <==>
            AllCoded(cs, McuTokens(y, mcu, n, last, f)) && AllCoded(cs, block))
      && TaggedBits(cs, McuTokens(y, mcu, n + 1, last, f)) ==
         TaggedBits(cs, McuTokens(y, mcu, n, last, f)) + TaggedBits(cs, block)
  {
    hide AllCoded, TaggedBits, BlockTokens, AreCTables, NextLast;
    var ci := y.member[n];
    var block := BlockTokens(y, ci, mcu[n], LastsAfter(y, mcu, n, last, f)[ci], f);
    AllCodedConcat(cs, McuTokens(y, mcu, n, last, f), block);
    TaggedBitsConcat(cs, McuTokens(y, mcu, n, last, f), block);
  }

  // One block of any form -------------------------------------------------------------------

  /** The block, as the scan's MCU routine codes it, and the next prediction. */
  method EncodeBlock(w: Writer, y: Layout, ci: nat, block: seq<int>, last: int, cs: seq<CTable>, order: seq<nat>,
                     f: Form)
    returns (ok: bool, next: int)
    requires w.Valid() && IsLayout(y) && ci < |y.dc| && |block| == 64 && AreCTables(cs) && IsZigzag(order) && IsForm(f)
    modifies w
    ensures w.Valid() && w.prior == old(w.prior)
    ensures var v := Zigzag(block, order);
      && (ok <==> BlockInRange(v, last, f) && AllCoded(cs, BlockTokens(y, ci, v, last, f)))
      && (ok ==> w.Written() == old(w.Written()) + TaggedBits(cs, BlockTokens(y, ci, v, last, f)) &&
                 next == NextLast(f, v, last))
  {
    hide Writer.Valid, Writer.Written, TaggedBits, AllBits, Coded, AllCoded, ValueTokens, AcTokens, Tag, InRange;
    hide IsCTable;
    ghost var v := Zigzag(block, order);
    DcFirst(order, block);
    TablesAre(cs, y.dc[ci], y.ac[ci]);
    var d, a := y.dc[ci], 4 + y.ac[ci];
    next := last;
    match f {
      case Whole(se) =>
        ghost var k0, k1 := ValueTokens(0, v[0] - last), AcTokens(v, 1, se);
        TagBoth(cs, d, k0, a, k1);
        ok := EncodeOneBlock(w, block, last, cs[d], cs[a], order, se);
        next := block[0];
      case FirstDc(al) =>
        TagCoded(cs, d, ValueTokens(0, Floor(v[0], al) - last));
        TagBits(cs, d, ValueTokens(0, Floor(v[0], al) - last));
        ok, next := EncodeDcFirst(w, block, last, cs[d], al);
      case NextDc(al) =>
        RawTagged(cs, Floor(v[0], al));
        EncodeDcRefine(w, block, al);
        ok := true;
    }
  }

  lemma TagBoth(cs: seq<CTable>, d: nat, k0: seq<Token>, a: nat, k1: seq<Token>)
    requires AreCTables(cs) && d < 8 && a < 8
    ensures AllCoded(cs, Tag(d, k0) + Tag(a, k1)) <==> Coded(cs[d], k0) && Coded(cs[a], k1)
    ensures TaggedBits(cs, Tag(d, k0) + Tag(a, k1)) == AllBits(cs[d], k0) + AllBits(cs[a], k1)
  {
    hide AllCoded, Coded, TaggedBits, AllBits, Tag;
    AllCodedConcat(cs, Tag(d, k0), Tag(a, k1));
    TagCoded(cs, d, k0);
    TagCoded(cs, a, k1);
    TaggedBitsConcat(cs, Tag(d, k0), Tag(a, k1));
    TagBits(cs, d, k0);
    TagBits(cs, a, k1);
  }

  lemma RawTagged(cs: seq<CTable>, x: int)
    requires AreCTables(cs)
    ensures AllCoded(cs, [Tagged(0, Raw(x, 1))]) && TaggedBits(cs, [Tagged(0, Raw(x, 1))]) == BitsOf(x, 1)
  {
    hide BitsOf;
    TaggedBitsSnoc(cs, [], Tagged(0, Raw(x, 1)));
    NothingTagged(cs);
    assert [] + [Tagged(0, Raw(x, 1))] == [Tagged(0, Raw(x, 1))];
  }

  /** Its symbols counted. */
  method GatherBlock(counts: array2<nat>, y: Layout, ci: nat, block: seq<int>, last: int, order: seq<nat>, f: Form,
                     ghost base: seq<seq<nat>>, ghost ts: seq<Tagged>)
    returns (ok: bool, next: int)
    requires Tallied(counts, base, ts) && IsLayout(y) && ci < |y.dc| && |block| == 64 && IsZigzag(order) && IsForm(f)
    modifies counts
    ensures var v := Zigzag(block, order);
      && (ok <==> BlockInRange(v, last, f))
      && (ok ==> Tallied(counts, base, ts + BlockTokens(y, ci, v, last, f)) && next == NextLast(f, v, last))
  {
    hide Tallied, ValueTokens, AcTokens, Tag, InRange, Zigzag;
    ghost var v := Zigzag(block, order);
    DcFirst(order, block);
    next := last;
    match f {
      case Whole(se) =>
        ok := HtestOneBlock(block, last, counts, y.dc[ci], y.ac[ci], order, se, base, ts);
        next := block[0];
      case FirstDc(al) =>
        ok, next := GatherDcFirst(block, last, counts, y.dc[ci], al, base, ts);
      case NextDc(al) =>
        RawUncounted(counts, base, ts, 0, Floor(v[0], al), 1);
        ok := true;
    }
  }

  lemma {:induction false} PrefixCoded(y: Layout, cs: seq<CTable>, mcu: seq<seq<int>>, n: nat, m: nat, last: seq<int>,
                                       f: Form)
    requires IsLayout(y) && AreCTables(cs) && IsMcu(y, mcu) && n <= m <= |mcu| && |last| == |y.dc| && IsForm(f)
    ensures AllCoded(cs, McuTokens(y, mcu, m, last, f)) ==> AllCoded(cs, McuTokens(y, mcu, n, last, f))
  {
    hide AllCoded, BlockTokens, AreCTables;
    if n < m {
      PrefixCoded(y, cs, mcu, n, m - 1, last, f);
      var ci := y.member[m - 1];
      AllCodedConcat(cs, McuTokens(y, mcu, m - 1, last, f),
                     BlockTokens(y, ci, mcu[m - 1], LastsAfter(y, mcu, m - 1, last, f)[ci], f));
    }
  }

  // The statistics pass ---------------------------------------------------------------------

  class Statistics {
    const layout: Layout
    const order: seq<nat>
    const form: Form
    const counts: array2<nat>
    const restart_interval: nat
    var last_dc_val: seq<int>
    var restarts_to_go: nat
    ghost var groups: seq<seq<seq<seq<int>>>>
    ghost var cur: seq<seq<seq<int>>>
    ghost const base: seq<seq<nat>>

    ghost predicate Fixed() {
      IsLayout(layout) && IsZigzag(order) && IsForm(form)
    }

    ghost predicate Valid()
      reads this, counts
    {
      && Fixed() && AreSegments(layout, groups) && AreMcus(layout, cur) && last_dc_val == Lasts(layout, cur, form)
      && Tallied(counts, base, AllTokens(layout, groups, form) + SegmentTokens(layout, cur, form))
    }

    constructor (y: Layout, natural_order: seq<nat>, f: Form, interval: nat, counters: array2<nat>,
                 ghost start: seq<seq<nat>>)
      requires IsLayout(y) && IsZigzag(natural_order) && IsForm(f) && Tallied(counters, start, [])
      ensures Valid() && groups == [] && cur == [] && restarts_to_go == restart_interval == interval
      ensures layout == y && order == natural_order && form == f && counts == counters && base == start
    {
      layout, order, form, counts, restart_interval := y, natural_order, f, counters, interval;
      last_dc_val, restarts_to_go := seq(|y.dc|, _ => 0), interval;
      groups, cur, base := [], [], start;
      new;
      EmptySegment(layout, form);
      assert AllTokens(layout, [], form) + [] == [];
    }

    /** encode_mcu_gather, or a progressive DC routine that only counts. */
    method Gather(mcu: seq<seq<int>>) returns (ok: bool)
      requires Valid() && IsMcu(layout, mcu)
      modifies this, counts
      ensures var v, restart := ZigzagMcu(mcu, order), restart_interval > 0 && old(restarts_to_go) == 0;
        && (ok <==> McuInRange(layout, v, |v|, Lasts(layout, if restart then [] else old(cur), form), form))
        && (ok ==> Valid() && cur == (if restart then [] else old(cur)) + [v]
                   && groups == old(groups) + (if restart then [old(cur)] else [])
                   && restarts_to_go == if restart_interval == 0 then old(restarts_to_go)
                                        else if restart then restart_interval - 1 else old(restarts_to_go) - 1)
    {
      hide Tallied, McuInRange, McuTokens, Lasts, LastsAfter, SegmentTokens, SegmentInRange, AreSegments, AllTokens;
      ghost var v, all := ZigzagMcu(mcu, order), AllTokens(layout, groups, form) + SegmentTokens(layout, cur, form);
      if restart_interval > 0 {
        if restarts_to_go == 0 {
          last_dc_val := seq(|layout.dc|, _ => 0);
          restarts_to_go := restart_interval;
          AllTokensSnoc(layout, groups, cur, form);
          EmptySegment(layout, form);
          groups, cur := groups + [cur], [];
        }
        restarts_to_go := restarts_to_go - 1;
      }
      assert AllTokens(layout, groups, form) + SegmentTokens(layout, cur, form) == all;
      ghost var before := cur;
      ok := GatherBlocks(mcu, all);
      if ok {
        SegmentSnoc(layout, before, v, form);
        assert all + McuTokens(layout, v, |v|, Lasts(layout, before, form), form) ==
               AllTokens(layout, groups, form) +
               (SegmentTokens(layout, before, form) + McuTokens(layout, v, |v|, Lasts(layout, before, form), form));
        cur := cur + [v];
      }
    }

    method GatherBlocks(mcu: seq<seq<int>>, ghost ts: seq<Tagged>) returns (ok: bool)
      requires Fixed() && |last_dc_val| == |layout.dc| && IsMcu(layout, mcu) && Tallied(counts, base, ts)
      modifies counts, `last_dc_val
      ensures var v := ZigzagMcu(mcu, order);
        && (ok <==> McuInRange(layout, v, |v|, old(last_dc_val), form))
        && (ok ==> last_dc_val == LastsAfter(layout, v, |v|, old(last_dc_val), form) &&
                   Tallied(counts, base, ts + McuTokens(layout, v, |v|, old(last_dc_val), form)))
    {
      hide Tallied, McuInRange, BlockTokens, BlockInRange, NextLast, IsZigzag, Zigzag;
      ghost var v, l0 := ZigzagMcu(mcu, order), last_dc_val;
      assert ts + [] == ts;
      NoBlocks(layout, v, l0, form);
      for blkn := 0 to |mcu|
        invariant |last_dc_val| == |layout.dc| && last_dc_val == LastsAfter(layout, v, blkn, l0, form)
        invariant McuInRange(layout, v, blkn, l0, form)
        invariant Tallied(counts, base, ts + McuTokens(layout, v, blkn, l0, form))
      {
        var ci := layout.member[blkn];
        RangeStep(layout, v, blkn, l0, form);
        ghost var so := ts + McuTokens(layout, v, blkn, l0, form);
        ghost var block := BlockTokens(layout, ci, v[blkn], last_dc_val[ci], form);
        var next;
        ok, next := GatherBlock(counts, layout, ci, mcu[blkn], last_dc_val[ci], order, form, base, so);
        if !ok {
          RangePrefix(layout, v, blkn + 1, l0, form);
          return;
        }
        assert so + block == ts + McuTokens(layout, v, blkn + 1, l0, form);
        last_dc_val := last_dc_val[ci := next];
      }
      ok := true;
    }
  }

  lemma NoBlocks(y: Layout, mcu: seq<seq<int>>, last: seq<int>, f: Form)
    requires IsLayout(y) && IsMcu(y, mcu) && |last| == |y.dc| && IsForm(f)
    ensures McuInRange(y, mcu, 0, last, f)
  {
  }

  // Whole scans -----------------------------------------------------------------------------

  ghost predicate NaturalMcus(y: Layout, mcus: seq<seq<seq<int>>>) {
    forall i :: 0 <= i < |mcus| ==> IsMcu(y, mcus[i])
  }

  ghost function ZigzagMcus(y: Layout, mcus: seq<seq<seq<int>>>, order: seq<nat>): (vs: seq<seq<seq<int>>>)
    requires NaturalMcus(y, mcus) && IsZigzag(order)
    ensures |vs| == |mcus| && AreMcus(y, vs) && forall i :: 0 <= i < |vs| ==> vs[i] == ZigzagMcu(mcus[i], order)
  {
    seq(|mcus|, i requires 0 <= i < |mcus| => ZigzagMcu(mcus[i], order))
  }

  lemma SplitMcus(y: Layout, vs: seq<seq<seq<int>>>, interval: nat)
    requires AreMcus(y, vs)
    ensures var s := SplitBy(vs, interval);
      AreSegments(y, s.groups) && AreMcus(y, s.cur) && AreSegments(y, SegmentsOf(vs, interval))
  {
    SplitAll(vs, interval, mcu => IsMcu(y, mcu));
  }

  ghost function ScanTokens(y: Layout, vs: seq<seq<seq<int>>>, interval: nat, f: Form): seq<Tagged>
    requires IsLayout(y) && AreMcus(y, vs) && IsForm(f)
  {
    SplitMcus(y, vs, interval);
    AllTokens(y, SegmentsOf(vs, interval), f)
  }

  /** Every value of the scan can be coded. */
  ghost predicate ScanInRange(y: Layout, vs: seq<seq<seq<int>>>, interval: nat, f: Form)
    requires IsLayout(y) && AreMcus(y, vs) && IsForm(f)
  {
    SplitMcus(y, vs, interval);
    forall g :: 0 <= g < |SegmentsOf(vs, interval)| ==> SegmentInRange(y, SegmentsOf(vs, interval)[g], f)
  }

  ghost predicate ScanCoded(y: Layout, cs: seq<CTable>, vs: seq<seq<seq<int>>>, interval: nat, f: Form,
                            codes: seq<seq<int>>)
    requires IsLayout(y) && AreMcus(y, vs) && IsForm(f) && AreCTables(cs)
  {
    SplitMcus(y, vs, interval);
    var groups := SegmentsOf(vs, interval);
    && |codes| == |groups|
    && forall g :: 0 <= g < |codes| ==> Padded(codes[g], TaggedBits(cs, SegmentTokens(y, groups[g], f)))
  }

  /** The predictions MCU n starts from. */
  ghost function Base(vs: seq<seq<seq<int>>>, interval: nat, n: nat): seq<seq<seq<int>>>
    requires n <= |vs|
  {
    var s := SplitBy(vs[..n], interval);
    if interval > 0 && s.togo == 0 then [] else s.cur
  }

  lemma {:induction false} ScanStep(y: Layout, vs: seq<seq<seq<int>>>, interval: nat, n: nat, f: Form)
    requires IsLayout(y) && AreMcus(y, vs) && IsForm(f) && n < |vs|
    ensures AreMcus(y, vs[..n]) && AreMcus(y, vs[..n + 1]) && AreMcus(y, Base(vs, interval, n))
    ensures var s, q := SplitBy(vs[..n], interval), SplitBy(vs[..n + 1], interval);
      var restart := interval > 0 && s.togo == 0;
      && q.cur == Base(vs, interval, n) + [vs[n]] && q.groups == s.groups + (if restart then [s.cur] else [])
      && q.togo == if interval == 0 then s.togo else if restart then interval - 1 else s.togo - 1
    ensures var last := Lasts(y, Base(vs, interval, n), f);
      && (ScanInRange(y, vs[..n + 1], interval, f) <==>
            ScanInRange(y, vs[..n], interval, f) && McuInRange(y, vs[n], |vs[n]|, last, f))
      && ScanTokens(y, vs[..n + 1], interval, f) ==
         ScanTokens(y, vs[..n], interval, f) + McuTokens(y, vs[n], |vs[n]|, last, f)
  {
    hide SegmentTokens, SegmentInRange, McuInRange, McuTokens, Lasts, AllTokens, IsLayout;
    assert vs[..n + 1][..n] == vs[..n];
    SplitMcus(y, vs[..n], interval);
    SplitMcus(y, vs[..n + 1], interval);
    var s := SplitBy(vs[..n], interval);
    var restart := interval > 0 && s.togo == 0;
    var before := Base(vs, interval, n);
    EmptySegment(y, f);
    SegmentSnoc(y, before, vs[n], f);
    AllTokensSnoc(y, s.groups, s.cur, f);
    if restart {
      AllTokensSnoc(y, s.groups + [s.cur], before + [vs[n]], f);
      assert before + [vs[n]] == [vs[n]];
      assert SegmentsOf(vs[..n + 1], interval) == SegmentsOf(vs[..n], interval) + [before + [vs[n]]];
      assert [] + McuTokens(y, vs[n], |vs[n]|, Lasts(y, before, f), f) ==
        McuTokens(y, vs[n], |vs[n]|, Lasts(y, before, f), f);
      RangeSnoc(y, SegmentsOf(vs[..n], interval), before + [vs[n]], f);
    } else {
      AllTokensSnoc(y, s.groups, before + [vs[n]], f);
      Reassociate3(AllTokens(y, s.groups, f), SegmentTokens(y, before, f),
                   McuTokens(y, vs[n], |vs[n]|, Lasts(y, before, f), f));
      assert SegmentsOf(vs[..n + 1], interval) == s.groups + [before + [vs[n]]];
      RangeSnoc(y, s.groups, before + [vs[n]], f);
      RangeSnoc(y, s.groups, before, f);
    }
  }

  lemma Reassociate3(a: seq<Tagged>, b: seq<Tagged>, c: seq<Tagged>)
    ensures a + (b + c) == (a + b) + c
  {
  }

  lemma RangeSnoc(y: Layout, groups: seq<seq<seq<seq<int>>>>, cur: seq<seq<seq<int>>>, f: Form)
    requires IsLayout(y) && AreSegments(y, groups) && AreMcus(y, cur) && IsForm(f)
    ensures AreSegments(y, groups + [cur])
    ensures (forall g :: 0 <= g < |groups + [cur]| ==> SegmentInRange(y, (groups + [cur])[g], f)) <==>
            (forall g :: 0 <= g < |groups| ==> SegmentInRange(y, groups[g], f)) && SegmentInRange(y, cur, f)
  {
    hide SegmentInRange, IsLayout;
    var all := groups + [cur];
    if forall g :: 0 <= g < |all| ==> SegmentInRange(y, all[g], f) {
      assert SegmentInRange(y, all[|groups|], f);
      forall g | 0 <= g < |groups| ensures SegmentInRange(y, groups[g], f) {
        assert SegmentInRange(y, all[g], f);
      }
    }
  }

  lemma {:induction false} ScanPrefix(y: Layout, cs: seq<CTable>, vs: seq<seq<seq<int>>>, interval: nat, n: nat,
                                      f: Form)
    requires IsLayout(y) && AreMcus(y, vs) && IsForm(f) && n <= |vs| && AreCTables(cs)
    ensures AreMcus(y, vs[..n])
    ensures ScanInRange(y, vs, interval, f) ==> ScanInRange(y, vs[..n], interval, f)
    ensures AllCoded(cs, ScanTokens(y, vs, interval, f)) ==> AllCoded(cs, ScanTokens(y, vs[..n], interval, f))
    decreases |vs| - n
  {
    hide ScanTokens, ScanInRange, AllCoded, Base, McuTokens, Lasts, IsLayout, AreCTables, McuInRange;
    if n == |vs| {
      assert vs[..n] == vs;
    } else {
      ScanPrefix(y, cs, vs, interval, n + 1, f);
      ScanStep(y, vs, interval, n, f);
      AllCodedConcat(cs, ScanTokens(y, vs[..n], interval, f),
                     McuTokens(y, vs[n], |vs[n]|, Lasts(y, Base(vs, interval, n), f), f));
    }
  }

  lemma ScanNothing(y: Layout, cs: seq<CTable>, vs: seq<seq<seq<int>>>, interval: nat, f: Form)
    requires IsLayout(y) && IsForm(f) && AreCTables(cs) && AreMcus(y, vs)
    ensures vs[..0] == [] && AreMcus(y, []) && SplitBy(vs[..0], interval) == Split([], [], interval)
    ensures ScanInRange(y, [], interval, f) && ScanTokens(y, [], interval, f) == [] && AllCoded(cs, [])
  {
    EmptySegment(y, f);
    var nothing: seq<seq<seq<seq<int>>>> := [];
    assert SegmentsOf<seq<seq<int>>>([], interval) == nothing + [[]];
    AllTokensSnoc(y, nothing, [], f);
  }

  /** The statistics pass over a scan; it fails exactly for values that cannot be coded. */
  method GatherScan(mcus: seq<seq<seq<int>>>, y: Layout, order: seq<nat>, f: Form, interval: nat, counts: array2<nat>,
                    ghost base: seq<seq<nat>>, ghost cs: seq<CTable>)
    returns (ok: bool)
    requires IsLayout(y) && NaturalMcus(y, mcus) && IsZigzag(order) && IsForm(f) && Tallied(counts, base, [])
    requires AreCTables(cs)
    modifies counts
    ensures var vs := ZigzagMcus(y, mcus, order);
      && (ok <==> ScanInRange(y, vs, interval, f))
      && (ok ==> Tallied(counts, base, ScanTokens(y, vs, interval, f)))
  {
    hide ScanInRange, Tallied, SplitBy, McuInRange, McuTokens, Lasts, SegmentTokens, IsZigzag, ZigzagMcu, AreCTables;
    hide AllCoded;
    ghost var vs := ZigzagMcus(y, mcus, order);
    ScanNothing(y, cs, vs, interval, f);
    var st := new Statistics(y, order, f, interval, counts, base);
    for i := 0 to |mcus|
      invariant st.Valid() && fresh(st) && st.layout == y && st.counts == counts && st.restart_interval == interval
      invariant st.order == order && st.form == f && st.base == base && AreMcus(y, vs[..i])
      invariant var s := SplitBy(vs[..i], interval);
        st.groups == s.groups && st.cur == s.cur && st.restarts_to_go == s.togo
      invariant ScanInRange(y, vs[..i], interval, f)
    {
      ScanStep(y, vs, interval, i, f);
      ok := st.Gather(mcus[i]);
      if !ok {
        ScanPrefix(y, cs, vs, interval, i + 1, f);
        return;
      }
    }
    assert vs[..|mcus|] == vs;
    SplitMcus(y, vs, interval);
    AllTokensSnoc(y, st.groups, st.cur, f);
    ok := true;
  }

  /** The output pass over a scan. */
  method EncodeScan(mcus: seq<seq<seq<int>>>, y: Layout, cs: seq<CTable>, order: seq<nat>, f: Form, interval: nat,
                    dest: seq<int>)
    returns (ok: bool, out: seq<int>, ghost codes: seq<seq<int>>)
    requires IsLayout(y) && NaturalMcus(y, mcus) && IsZigzag(order) && IsForm(f) && AreCTables(cs)
    ensures var vs := ZigzagMcus(y, mcus, order);
      && (ok <==> ScanInRange(y, vs, interval, f) && AllCoded(cs, ScanTokens(y, vs, interval, f)))
      && (ok ==> |codes| > 0 && ScanCoded(y, cs, vs, interval, f, codes)
                 && out == ScanBytes(dest, codes[..|codes| - 1], codes[|codes| - 1]))
  {
    hide ScanInRange, SplitBy, McuInRange, McuTokens, Lasts, SegmentTokens, IsZigzag, ZigzagMcu, AreCTables, AllCoded;
    hide ScanTokens, Output.Valid, TaggedBits, ScanBytes, RestartBytes, ScanCoded, Padded;
    ghost var vs := ZigzagMcus(y, mcus, order);
    ScanNothing(y, cs, vs, interval, f);
    var enc := new Output(y, cs, order, f, interval, dest);
    codes, out := [], [];
    for i := 0 to |mcus|
      invariant enc.Valid() && fresh(enc) && fresh(enc.writer) && enc.layout == y && enc.restart_interval == interval
      invariant enc.order == order && enc.form == f && enc.tables == cs && enc.start == dest && AreMcus(y, vs[..i])
      invariant var s := SplitBy(vs[..i], interval);
        enc.groups == s.groups && enc.cur == s.cur && enc.restarts_to_go == s.togo
      invariant ScanInRange(y, vs[..i], interval, f) && AllCoded(cs, ScanTokens(y, vs[..i], interval, f))
    {
      ScanStep(y, vs, interval, i, f);
      AllCodedConcat(cs, ScanTokens(y, vs[..i], interval, f),
                     McuTokens(y, vs[i], |vs[i]|, Lasts(y, Base(vs, interval, i), f), f));
      ok := enc.Encode(mcus[i]);
      if !ok {
        ScanPrefix(y, cs, vs, interval, i + 1, f);
        return;
      }
    }
    assert vs[..|mcus|] == vs;
    enc.Finish();
    out, codes := enc.writer.out, enc.codes + [enc.writer.data];
    assert codes[..|codes| - 1] == enc.codes;
    SplitMcus(y, vs, interval);
    FinishedIsCoded(enc, vs, interval);
    ok := true;
  }

  lemma FinishedIsCoded(enc: Output, vs: seq<seq<seq<int>>>, interval: nat)
    requires enc.Fixed() && enc.Finished() && AreMcus(enc.layout, vs)
    requires var s := SplitBy(vs, interval); enc.groups == s.groups && enc.cur == s.cur
    requires AreMcus(enc.layout, enc.cur)
    requires Padded(enc.writer.data, TaggedBits(enc.tables, SegmentTokens(enc.layout, enc.cur, enc.form)))
    ensures ScanCoded(enc.layout, enc.tables, vs, interval, enc.form, enc.codes + [enc.writer.data])
  {
    hide Padded, TaggedBits, SegmentTokens, SplitBy, RestartBytes;
    SplitMcus(enc.layout, vs, interval);
  }
}
