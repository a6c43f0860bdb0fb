/** decode_mcu and the progressive DC routines over a whole scan: restarts, suspension, and the DC predictions of
    the components that are needed. */
module SequentialSegments {
  import opened BitReader
  import opened Tokens
  import opened BandEncoder
  import opened SequentialPlan
  import opened SequentialEncoder
  import opened BlockArrays
  import opened SequentialScan
  import opened SequentialScanDecoder
  import opened Restarts
  import opened Segments
  import opened ScanReader
  import HuffmanCodes

  class Decoder {
    const scan: ScanReader<seq<seq<int>>>
    const layout: Layout
    const form: Form
    const tables: seq<DTable>
    const coef_limit: seq<nat>
    const order: seq<nat>
    var last_dc_val: seq<int>
    ghost const huffs: seq<HuffmanCodes.Table>
    ghost const codes: seq<CTable>
    ghost const needed: seq<bool>

    ghost predicate Setup() {
      && scan.Setup() && IsZigzag(order) && TablesMatch(layout, huffs, codes, tables, form)
      && GoodScan(scan.plan, layout, codes, scan.reader.src, form) && LimitsFit(layout, coef_limit, needed, form)
    }

    /** Before MCU n: the predictions of the needed components are the encoder's. */
    ghost predicate AtMcu(n: nat)
      requires n <= |scan.plan.xs|
      reads scan, scan.reader, `last_dc_val
    {
      var groups := SegmentsOf(scan.plan.xs, scan.plan.interval);
      && scan.AtItem(n) && scan.g < |groups| && scan.Place(n) <= |groups[scan.g]|
      && PredictionsAgree(layout, groups[scan.g][..scan.Place(n)], last_dc_val, needed, form)
    }

    constructor (reader: ScanReader<seq<seq<int>>>, y: Layout, f: Form, ds: seq<DTable>, limits: seq<nat>,
                 natural_order: seq<nat>, ghost ts: seq<HuffmanCodes.Table>, ghost cs: seq<CTable>,
                 ghost components: seq<bool>)
      requires reader.Setup() && reader.AtItem(0) && reader.g == 0 && reader.Place(0) == 0
      requires IsZigzag(natural_order) && TablesMatch(y, ts, cs, ds, f) && LimitsFit(y, limits, components, f)
      requires GoodScan(reader.plan, y, cs, reader.reader.src, f)
      ensures Setup() && AtMcu(0) && scan == reader && layout == y && form == f && coef_limit == limits
      ensures order == natural_order
    {
      hide GoodScan, IsOrder, ScanReader.AtItem, ScanReader.Place, ScanReader.Setup, Matched, TablesMatch, SplitBy;
      hide LimitsFit;
      scan, layout, form, tables, coef_limit, order := reader, y, f, ds, limits, natural_order;
      last_dc_val := seq(|y.dc|, _ => 0);
      huffs, codes, needed := ts, cs, components;
      new;
      LayoutIs(layout, huffs, codes, tables, coef_limit, needed, form);
      NothingPredicted(layout, SegmentsOf(scan.plan.xs, scan.plan.interval)[0], needed, form);
    }

    /** More input arrives. */
    method Deliver(more: nat, ghost n: nat)
      requires n <= |scan.plan.xs| && AtMcu(n) && more <= |scan.reader.src|
      modifies scan.reader`avail
      ensures AtMcu(n) && scan.reader.avail == more
    {
      hide ScanReader.Inside, SplitBy, PredictionsAgree;
      scan.Deliver(more, n);
    }

    /** A new segment starts from zero predictions. */
    method RestartIfDue(ghost n: nat) returns (ok: bool)
      requires Setup() && n < |scan.plan.xs| && AtMcu(n)
      modifies scan, `last_dc_val
      modifies scan.reader`pos, scan.reader`marker, scan.reader`get_buffer, scan.reader`bits_left,
               scan.reader`insufficient,
               scan.reader`m, scan.reader`held, scan.reader`discarded, scan.reader`next_restart_num, scan.reader`code,
               scan.reader`end
      ensures AtMcu(n)
      ensures if ok then scan.restart_interval == 0 || scan.restarts_to_go > 0
              else scan.reader.avail < |scan.reader.src|
    {
      hide GoodScan, IsOrder, ScanReader.AtItem, ScanReader.Place, ScanReader.Setup, TablesMatch, SegmentsOf, LimitsFit;
      var restarted;
      ok, restarted := scan.RestartIfDue(n);
      if restarted {
        last_dc_val := seq(|layout.dc|, _ => 0);
        InSegments(n);
        LayoutIs(layout, huffs, codes, tables, coef_limit, needed, form);
        NothingPredicted(layout, SegmentsOf(scan.plan.xs, scan.plan.interval)[scan.g], needed, form);
      }
    }

    lemma InSegments(n: nat)
      requires Setup() && n < |scan.plan.xs| && scan.AtItem(n)
      ensures scan.g < |SegmentsOf(scan.plan.xs, scan.plan.interval)|
    {
      hide GoodScan, IsOrder, TablesMatch, SplitBy, SegmentsOf, LimitsFit, ScanAt, Padded, Live;
    }

    /** MCU n, with no restart due: its blocks, on the working state. */
    method DecodeHere(blocks: seq<array<int>>, ghost n: nat, ghost was: seq<seq<int>>)
      returns (ok: bool, last: seq<int>)
      requires Setup() && n < |scan.plan.xs| && AtMcu(n) && (scan.restart_interval == 0 || scan.restarts_to_go > 0)
      requires AreArrays(blocks, |layout.member|)
      requires McuState(Contents(blocks), was, order, scan.plan.xs[n], coef_limit, 0, form)
      modifies blocks
      modifies scan.reader`pos, scan.reader`marker, scan.reader`get_buffer, scan.reader`bits_left,
               scan.reader`insufficient, scan.reader`m, scan.reader`held
      ensures Live(scan.reader) && (old(scan.reader.marker) != 0 ==> scan.reader.marker != 0)
      ensures var v := scan.plan.xs[n];
        McuState(Contents(blocks), was, order, v, coef_limit, if ok then |v| else 0, form)
      ensures !ok ==> scan.reader.avail < |scan.reader.src| && scan.reader.marker == 0
      ensures var groups, g, j := SegmentsOf(scan.plan.xs, scan.plan.interval), scan.g, scan.Place(n);
        && g < |groups| && j < |groups[g]| && g < |scan.plan.codes| == |scan.plan.bits|
        && (ok ==> PredictionsAgree(layout, groups[g][..j + 1], last, needed, form)
                   && scan.reader.Ahead() == Remaining(scan.plan, g, j + 1))
    {
      hide GoodScan, IsOrder, TablesMatch, SplitBy, SegmentsOf, LimitsFit, Remaining, Reader.Ahead, Progress, McuState;
      hide ScanReader.Setup, EndOf, McuFrom, McuInRange, AllCoded, Lasts, LastsAfter, AreCTables, Live, LastsAgree;
      hide TaggedBits;
      ghost var g, j := scan.g, scan.Place(n);
      scan.Next(n);
      McuAhead(scan.plan, layout, codes, scan.reader.src, g, j, form);
      ghost var v, seg := scan.plan.xs[n], SegmentsOf(scan.plan.xs, scan.plan.interval)[g];
      ghost var l0, rest := Lasts(layout, seg[..j], form), Remaining(scan.plan, g, j + 1);
      LimitsAre(layout, coef_limit, needed, form);
      LayoutIs(layout, huffs, codes, tables, coef_limit, needed, form);
      StartProgress(scan.reader, layout, codes, v, l0, last_dc_val, needed, rest, form);
      ok, last := DecodeBlocks(scan.reader, layout, tables, coef_limit, order, last_dc_val, blocks, form, needed, huffs,
                               codes,
        v, l0, rest, was);
      if ok {
        EndProgress(scan.reader, layout, codes, v, l0, last, needed, rest, form);
      }
    }

    /** MCU n, with no restart due. */
    method DecodeItem(blocks: seq<array<int>>, ghost n: nat, ghost was: seq<seq<int>>) returns (ok: bool)
      requires Setup() && n < |scan.plan.xs| && AtMcu(n) && (scan.restart_interval == 0 || scan.restarts_to_go > 0)
      requires AreArrays(blocks, |layout.member|)
      requires McuState(Contents(blocks), was, order, scan.plan.xs[n], coef_limit, 0, form)
      modifies scan`restarts_to_go, `last_dc_val, blocks
      modifies scan.reader`pos, scan.reader`marker, scan.reader`get_buffer, scan.reader`bits_left,
               scan.reader`insufficient, scan.reader`m, scan.reader`held
      ensures if ok then AtMcu(n + 1) else AtMcu(n) && scan.reader.avail < |scan.reader.src|
      ensures var v := scan.plan.xs[n];
        McuState(Contents(blocks), was, order, v, coef_limit, if ok then |v| else 0, form)
    {
      hide GoodScan, IsOrder, TablesMatch, SplitBy, SegmentsOf, LimitsFit, Remaining, Reader.Ahead, McuState;
      hide ScanReader.Setup, EndOf, Live, Resumable, PredictionsAgree, BitsFrom;
      var reader := scan.reader;
      if reader.insufficient && !form.NextDc? {
        OutOfData(reader);
        return true;
      }
      var pos, get_buffer, bits_left := reader.pos, reader.get_buffer, reader.bits_left;
      ghost var m, held := reader.m, reader.held;
      if reader.marker == 0 {
        CanResume(reader);
      }
      var last;
      ok, last := DecodeHere(blocks, n, was);
      if ok {
        last_dc_val := last;
        scan.Advance(n);
      } else {
        NotOutOfData(reader);
        Rewind(reader, pos, get_buffer, bits_left, m, held);
      }
    }

    /** decode_mcu, with restarts, for MCU n. */
    method Decode(blocks: seq<array<int>>, ghost n: nat, ghost was: seq<seq<int>>) returns (ok: bool)
      requires Setup() && n < |scan.plan.xs| && AtMcu(n)
      requires AreArrays(blocks, |layout.member|)
      requires McuState(Contents(blocks), was, order, scan.plan.xs[n], coef_limit, 0, form)
      modifies scan, `last_dc_val, blocks
      modifies scan.reader`pos, scan.reader`marker, scan.reader`get_buffer, scan.reader`bits_left,
               scan.reader`insufficient,
               scan.reader`m, scan.reader`held, scan.reader`discarded, scan.reader`next_restart_num, scan.reader`code,
               scan.reader`end
      ensures if ok then AtMcu(n + 1) else AtMcu(n) && scan.reader.avail < |scan.reader.src|
      ensures var v := scan.plan.xs[n];
        McuState(Contents(blocks), was, order, v, coef_limit, if ok then |v| else 0, form)
    {
      hide AtMcu, Setup, McuState, Contents, IsOrder;
      ok := RestartIfDue(n);
      if ok {
        ok := DecodeItem(blocks, n, was);
      }
    }
  }

  lemma OutOfData(reader: Reader)
    requires reader.insufficient
    ensures !Live(reader)
  {
  }

  lemma NotOutOfData(reader: Reader)
    requires Live(reader)
    ensures !reader.insufficient
  {
  }

  lemma LimitsAre(y: Layout, limits: seq<nat>, needed: seq<bool>, f: Form)
    requires LimitsFit(y, limits, needed, f)
    ensures IsLayout(y) && |limits| == |y.member| && |needed| == |y.dc|
    ensures forall i :: 0 <= i < |limits| ==> limits[i] <= 64 && (limits[i] > 0 <==> needed[y.member[i]])
  {
  }

  lemma StartProgress(reader: Reader, y: Layout, cs: seq<CTable>, v: seq<seq<int>>, l0: seq<int>, last: seq<int>,
                      needed: seq<bool>, rest: seq<int>, f: Form)
    requires IsLayout(y) && IsForm(f) && IsMcu(y, v) && |l0| == |y.dc| && AreCTables(cs) && Live(reader)
    requires LastsAgree(last, l0, needed)
    requires AllCoded(cs, McuFrom(y, v, 0, l0, f)) && reader.Ahead() == TaggedBits(cs, McuFrom(y, v, 0, l0, f)) + rest
    ensures Progress(reader, y, cs, v, l0, 0, last, needed, rest, f)
  {
    hide Live, TaggedBits, McuFrom, AllCoded;
  }

  lemma EndProgress(reader: Reader, y: Layout, cs: seq<CTable>, v: seq<seq<int>>, l0: seq<int>, last: seq<int>,
                    needed: seq<bool>, rest: seq<int>, f: Form)
    requires IsLayout(y) && IsForm(f) && IsMcu(y, v) && |l0| == |y.dc| && AreCTables(cs)
    requires Progress(reader, y, cs, v, l0, |v|, last, needed, rest, f)
    ensures Live(reader) && reader.Ahead() == rest && LastsAgree(last, LastsAfter(y, v, |v|, l0, f), needed)
  {
    hide Live;
    NothingTagged(cs);
    assert [] + rest == rest;
  }

  ghost predicate PredictionsAgree(y: Layout, mcus: seq<seq<seq<int>>>, last: seq<int>, needed: seq<bool>, f: Form) {
    IsLayout(y) && IsForm(f) && AreMcus(y, mcus) && LastsAgree(last, Lasts(y, mcus, f), needed)
  }

  lemma LayoutIs(y: Layout, huffs: seq<HuffmanCodes.Table>, cs: seq<CTable>, ds: seq<DTable>, limits: seq<nat>,
                 needed: seq<bool>, f: Form)
    requires TablesMatch(y, huffs, cs, ds, f) && LimitsFit(y, limits, needed, f)
    ensures IsLayout(y) && IsForm(f) && |needed| == |y.dc|
  {
    hide Matched;
  }

  lemma NothingPredicted(y: Layout, mcus: seq<seq<seq<int>>>, needed: seq<bool>, f: Form)
    requires IsLayout(y) && IsForm(f) && |needed| == |y.dc|
    ensures PredictionsAgree(y, mcus[..0], seq(|y.dc|, _ => 0), needed, f)
  {
  }
}
