/** Statistics pass, tables, output pass and decoding of a sequential or progressive DC scan, end to end. */
module SequentialRoundTrip {
  import opened Numbers
  import opened Bits
  import opened BitReader
  import opened Tokens
  import opened Values
  import opened BandEncoder
  import opened SequentialPlan
  import opened SequentialEncoder
  import opened BlockArrays
  import opened SequentialDecoder
  import opened SequentialScan
  import opened SequentialScanDecoder
  import opened SequentialSegments
  import opened Segments
  import opened Restarts
  import opened ScanReader
  import opened TwoPass
  import HuffmanTree
  import HuffmanGenerator
  import HuffmanCodes
  import CodeLengths

  // Which symbols are used ------------------------------------------------------------------

  /** A table of one of the components; DC scans have no AC tables, and refinements none at all. */
  predicate Used(y: Layout, t: nat, f: Form) {
    exists ci :: 0 <= ci < |y.dc| && ci < |y.ac| && ((t == y.dc[ci] && !f.NextDc?) || (t == 4 + y.ac[ci] && f.Whole?))
  }

  /** DC symbols are sizes up to 11; AC symbols end in a size up to 10; only the tables of the
      layout occur. */
  ghost predicate SymbolsFit(y: Layout, ts: seq<Tagged>, f: Form) {
    forall i :: 0 <= i < |ts| && ts[i].tok.Sym? ==> Fitting(y, ts[i].tbl, ts[i].tok.s, f)
  }

  ghost predicate Fitting(y: Layout, t: nat, s: nat, f: Form) {
    Used(y, t, f) && t < 8 && if t < 4 then s <= 11 else s < 256 && s % 16 <= 10
  }

  lemma FitConcat(y: Layout, s: seq<Tagged>, t: seq<Tagged>, f: Form)
    ensures SymbolsFit(y, s, f) && SymbolsFit(y, t, f) ==> SymbolsFit(y, s + t, f)
  {
    hide Fitting;
  }

  lemma FitTag(y: Layout, t: nat, ks: seq<Token>, f: Form)
    requires forall i :: 0 <= i < |ks| && ks[i].Sym? ==> Fitting(y, t, ks[i].s, f)
    ensures SymbolsFit(y, Tag(t, ks), f)
  {
    hide Fitting;
  }

  lemma FitAc(y: Layout, v: seq<int>, k: nat, ci: nat, f: Form)
    requires f.Whole? && AcInRange(v) && 1 <= k && ci < |y.dc| == |y.ac| && y.ac[ci] < 4
    ensures SymbolsFit(y, Tag(4 + y.ac[ci], AcTokens(v, k, LAST)), f)
    ensures k <= LAST ==> |AcTokens(v, k, LAST)| > 0 && AcTokens(v, k, LAST)[0].Sym?
    decreases 64 - k
  {
    hide BitLength, SymbolsFit;
    var t := 4 + y.ac[ci];
    assert Used(y, t, f);
    FitTag(y, t, [], f);
    if k <= LAST {
      var n := Next(v, k, LAST);
      if n > LAST {
        FitTag(y, t, [Sym(0)], f);
      } else if n - k > 15 {
        FitAc(y, v, k + 16, ci, f);
        FitTag(y, t, [Sym(0xF0)], f);
        FitConcat(y, Tag(t, [Sym(0xF0)]), Tag(t, AcTokens(v, k + 16, LAST)), f);
        TagConcat([], t, [Sym(0xF0)], AcTokens(v, k + 16, LAST));
        Plain(Tag(t, [Sym(0xF0)]), Tag(t, AcTokens(v, k + 16, LAST)), Tag(t, [Sym(0xF0)] + AcTokens(v, k + 16, LAST)));
      } else {
        FitAc(y, v, n + 1, ci, f);
        FitTag(y, t, ValueTokens(n - k, v[n]), f);
        FitConcat(y, Tag(t, ValueTokens(n - k, v[n])), Tag(t, AcTokens(v, n + 1, LAST)), f);
        TagConcat([], t, ValueTokens(n - k, v[n]), AcTokens(v, n + 1, LAST));
        Plain(Tag(t, ValueTokens(n - k, v[n])), Tag(t, AcTokens(v, n + 1, LAST)),
              Tag(t, ValueTokens(n - k, v[n]) + AcTokens(v, n + 1, LAST)));
      }
    }
  }

  lemma Plain(s: seq<Tagged>, t: seq<Tagged>, all: seq<Tagged>)
    requires [] + all == [] + s + t
    ensures all == s + t
  {
    assert [] + all == all && [] + s == s;
  }

  lemma FitBlock(y: Layout, ci: nat, v: seq<int>, last: int, f: Form)
    requires IsLayout(y) && Decodable(f) && ci < |y.dc| && |v| == 64 && BlockInRange(v, last, f)
    ensures SymbolsFit(y, BlockTokens(y, ci, v, last, f), f)
  {
    hide BitLength, SymbolsFit;
    match f {
      case Whole(_) =>
        assert Used(y, y.dc[ci], f);
        FitTag(y, y.dc[ci], ValueTokens(0, v[0] - last), f);
        FitAc(y, v, 1, ci, f);
        FitConcat(y, Tag(y.dc[ci], ValueTokens(0, v[0] - last)), Tag(4 + y.ac[ci], AcTokens(v, 1, LAST)), f);
      case FirstDc(al) =>
        assert Used(y, y.dc[ci], f);
        FitTag(y, y.dc[ci], ValueTokens(0, Floor(v[0], al) - last), f);
      case NextDc(al) => RawFits(y, Floor(v[0], al), f);
    }
  }

  lemma RawFits(y: Layout, x: int, f: Form)
    ensures SymbolsFit(y, [Tagged(0, Raw(x, 1))], f)
  {
  }

  lemma {:induction false} FitMcu(y: Layout, mcu: seq<seq<int>>, n: nat, last: seq<int>, f: Form)
    requires IsLayout(y) && Decodable(f) && IsMcu(y, mcu) && n <= |mcu| && |last| == |y.dc|
    requires McuInRange(y, mcu, n, last, f)
    ensures SymbolsFit(y, McuTokens(y, mcu, n, last, f), f)
  {
    hide BlockInRange, SymbolsFit, BlockTokens, LastsAfter;
    if n > 0 {
      FitMcu(y, mcu, n - 1, last, f);
      var ci := y.member[n - 1];
      var l := LastsAfter(y, mcu, n - 1, last, f)[ci];
      FitBlock(y, ci, mcu[n - 1], l, f);
      FitConcat(y, McuTokens(y, mcu, n - 1, last, f), BlockTokens(y, ci, mcu[n - 1], l, f), f);
    } else {
      FitNothing(y, f);
    }
  }

  lemma FitNothing(y: Layout, f: Form)
    ensures SymbolsFit(y, [], f)
  {
  }

  lemma {:induction false} FitScan(y: Layout, vs: seq<seq<seq<int>>>, interval: nat, n: nat, f: Form)
    requires IsLayout(y) && Decodable(f) && AreMcus(y, vs) && n <= |vs| && AreMcus(y, vs[..n])
    requires ScanInRange(y, vs[..n], interval, f)
    ensures SymbolsFit(y, ScanTokens(y, vs[..n], interval, f), f)
  {
    hide ScanInRange, ScanTokens, SymbolsFit, McuTokens, McuInRange, Lasts, IsLayout, Base;
    if n > 0 {
      ScanStep(y, vs, interval, n - 1, f);
      FitScan(y, vs, interval, n - 1, f);
      var last := Lasts(y, Base(vs, interval, n - 1), f);
      FitMcu(y, vs[n - 1], |vs[n - 1]|, last, f);
      FitConcat(y, ScanTokens(y, vs[..n - 1], interval, f), McuTokens(y, vs[n - 1], |vs[n - 1]|, last, f), f);
    } else {
      assert vs[..0] == [];
      EmptyScan(y, interval, f);
      FitNothing(y, f);
    }
  }

  lemma EmptyScan(y: Layout, interval: nat, f: Form)
    requires IsLayout(y) && Decodable(f)
    ensures AreMcus(y, []) && ScanTokens(y, [], interval, f) == []
  {
    EmptySegment(y, f);
    var nothing: seq<seq<seq<seq<int>>>> := [];
    assert SegmentsOf<seq<seq<int>>>([], interval) == nothing + [[]];
    AllTokensSnoc(y, nothing, [], f);
  }

  /** A token with a symbol of table t. */
  ghost predicate Uses(ts: seq<Tagged>, t: nat) {
    exists i :: 0 <= i < |ts| && ts[i].tbl == t && ts[i].tok.Sym?
  }

  lemma UsesConcat(s: seq<Tagged>, r: seq<Tagged>, t: nat)
    ensures Uses(s, t) || Uses(r, t) ==> Uses(s + r, t)
  {
    if Uses(s, t) {
      var i :| 0 <= i < |s| && s[i].tbl == t && s[i].tok.Sym?;
      assert (s + r)[i] == s[i];
    }
    if Uses(r, t) {
      var i :| 0 <= i < |r| && r[i].tbl == t && r[i].tok.Sym?;
      assert (s + r)[|s| + i] == r[i];
    }
  }

  /** Every component has a block in each MCU, so every table of the layout is used. */
  ghost predicate Covered(y: Layout) {
    forall ci :: 0 <= ci < |y.dc| ==> ci in y.member
  }

  lemma {:induction false} McuUses(y: Layout, mcu: seq<seq<int>>, n: nat, last: seq<int>, i: nat, f: Form)
    requires IsLayout(y) && Decodable(f) && IsMcu(y, mcu) && i < n <= |mcu| && |last| == |y.dc|
    requires McuInRange(y, mcu, n, last, f)
    ensures f.NextDc? || Uses(McuTokens(y, mcu, n, last, f), y.dc[y.member[i]])
    ensures f.Whole? ==> Uses(McuTokens(y, mcu, n, last, f), 4 + y.ac[y.member[i]])
  {
    hide Uses, BlockInRange, McuInRange, BlockTokens, LastsAfter;
    RangeStep(y, mcu, n - 1, last, f);
    var ci := y.member[n - 1];
    var l := LastsAfter(y, mcu, n - 1, last, f)[ci];
    var d, a := y.dc[y.member[i]], 4 + y.ac[y.member[i]];
    var before, block := McuTokens(y, mcu, n - 1, last, f), BlockTokens(y, ci, mcu[n - 1], l, f);
    UsesConcat(before, block, d);
    UsesConcat(before, block, a);
    if i < n - 1 {
      McuUses(y, mcu, n - 1, last, i, f);
    } else {
      BlockUses(y, ci, mcu[n - 1], l, f);
    }
  }

  lemma BlockUses(y: Layout, ci: nat, v: seq<int>, last: int, f: Form)
    requires IsLayout(y) && Decodable(f) && ci < |y.dc| && |v| == 64 && BlockInRange(v, last, f)
    ensures var block := BlockTokens(y, ci, v, last, f);
      (f.NextDc? || Uses(block, y.dc[ci])) && (f.Whole? ==> Uses(block, 4 + y.ac[ci]))
  {
    hide BitLength, AcTokens, Floor;
    match f {
      case Whole(_) =>
        var k0, k1 := Tag(y.dc[ci], ValueTokens(0, v[0] - last)), Tag(4 + y.ac[ci], AcTokens(v, 1, LAST));
        FitAc(y, v, 1, ci, f);
        assert k0[0].tok.Sym? && k1[0].tok.Sym?;
        UsesConcat(k0, k1, y.dc[ci]);
        UsesConcat(k0, k1, 4 + y.ac[ci]);
      case FirstDc(al) =>
        assert Tag(y.dc[ci], ValueTokens(0, Floor(v[0], al) - last))[0].tok.Sym?;
      case NextDc(_) =>
    }
  }

  lemma ScanUses(y: Layout, vs: seq<seq<seq<int>>>, interval: nat, t: nat, f: Form)
    requires IsLayout(y) && Decodable(f) && AreMcus(y, vs) && |vs| > 0 && Covered(y) && Used(y, t, f)
    requires ScanInRange(y, vs, interval, f)
    ensures Uses(ScanTokens(y, vs, interval, f), t)
  {
    hide ScanInRange, ScanTokens, Uses, McuTokens, McuInRange, Lasts, Base;
    var n := |vs| - 1;
    assert vs[..n + 1] == vs;
    ScanStep(y, vs, interval, n, f);
    var ci :| 0 <= ci < |y.dc| && ci < |y.ac| && ((t == y.dc[ci] && !f.NextDc?) || (t == 4 + y.ac[ci] && f.Whole?));
    assert ci in y.member;
    var i: nat :| i < |y.member| && y.member[i] == ci;
    var last := Lasts(y, Base(vs, interval, n), f);
    McuUses(y, vs[n], |vs[n]|, last, i, f);
    UsesConcat(ScanTokens(y, vs[..n], interval, f), McuTokens(y, vs[n], |vs[n]|, last, f), t);
  }

  /** Seen through one table. */
  lemma {:induction false} OnlyMember(ts: seq<Tagged>, t: nat, j: nat) returns (i: nat)
    requires j < |Only(ts, t)|
    ensures i < |ts| && ts[i] == Tagged(t, Only(ts, t)[j])
  {
    var n := |ts| - 1;
    if ts[n].tbl == t && j == |Only(ts[..n], t)| {
      i := n;
    } else {
      i := OnlyMember(ts[..n], t, j);
    }
  }

  lemma {:induction false} OnlyHas(ts: seq<Tagged>, i: nat) returns (j: nat)
    requires i < |ts|
    ensures j < |Only(ts, ts[i].tbl)| && Only(ts, ts[i].tbl)[j] == ts[i].tok
  {
    var n := |ts| - 1;
    if i == n {
      j := |Only(ts[..n], ts[i].tbl)|;
    } else {
      j := OnlyHas(ts[..n], i);
    }
  }

  lemma TableView(y: Layout, ts: seq<Tagged>, t: nat, f: Form)
    requires SymbolsFit(y, ts, f) && Uses(ts, t) && t < 8
    ensures Sparse(Only(ts, t)) && HasSymbol(Only(ts, t))
    ensures t < 4 ==> forall s :: 16 <= s < 256 ==> Count(Only(ts, t), s) == 0
  {
    hide Only, Count;
    var ks := Only(ts, t);
    forall j | 0 <= j < |ks| && ks[j].Sym? ensures Fitting(y, t, ks[j].s, f) {
      var i := OnlyMember(ts, t, j);
    }
    var i :| 0 <= i < |ts| && ts[i].tbl == t && ts[i].tok.Sym?;
    var j := OnlyHas(ts, i);
    assert ks[j].Sym?;
    if t < 4 {
      forall s | 16 <= s < 256 ensures Count(ks, s) == 0 {
        CountAbsent(ks, s);
      }
    }
  }

  // Tables --------------------------------------------------------------------------------------

  /** Table t has been made, and codes all its symbols. */
  ghost predicate Made(t: nat, huffs: seq<HuffmanCodes.Table>, cs: seq<CTable>, ds: seq<DTable>, ts: seq<Tagged>)
    requires |huffs| == |cs| == |ds| == 8 && t < 8 && AreCTables(cs)
  {
    Matched(huffs[t], cs[t], ds[t]) && Coded(cs[t], Only(ts, t))
  }

  ghost predicate Countable(ts: seq<Tagged>) {
    forall t :: 0 <= t < 8 ==> HuffmanTree.Sum(Counts(Only(ts, t))) <= HuffmanTree.LIMIT
  }

  /** One table from its counters. */
  method BuildOne(counts: array2<nat>, tbl: nat, y: Layout, ghost base: seq<seq<nat>>, ghost ts: seq<Tagged>, f: Form)
    returns (ok: bool, t: HuffmanCodes.Table, c: CTable, d: DTable, ghost size: seq<nat>)
    requires Tallied(counts, base, ts) && tbl < 8 && (forall t, s :: 0 <= t < 8 && 0 <= s < 256 ==> base[t][s] == 0)
    requires SymbolsFit(y, ts, f) && Uses(ts, tbl) && Countable(ts)
    ensures HuffmanGenerator.Optimal(Counts(Only(ts, tbl)) + [1], size)
    ensures if ok then Matched(t, c, d) && IsCTable(c) && Coded(c, Only(ts, tbl))
            else exists i :: 0 <= i < |size| && size[i] > CodeLengths.MAX_CLEN
  {
    hide Only, Count, HuffmanTree.Sum, Coded, HuffmanGenerator.Optimal, SymbolsFit, Uses, Sparse, HasSymbol;
    hide HuffmanCodes.EncodesWith;
    TableView(y, ts, tbl, f);
    var freq := new nat[257](s requires 0 <= s < 257 reads counts =>
      if tbl < counts.Length0 && s < counts.Length1 then counts[tbl, s] else 0);
    assert freq[..256] == Counts(Only(ts, tbl));
    ok, t, c, d, size := TablesFor(freq, tbl < 4, Only(ts, tbl));
    if !ok {
      ghost var i :| 0 <= i < 257 && size[i] > CodeLengths.MAX_CLEN;
      assert |size| == 257;
    }
  }

  /** finish_pass_gather: every table of the scan's components, each once. It fails only if the
      optimal code for one of them has a length over 32. */
  method FinishGather(counts: array2<nat>, y: Layout, ghost base: seq<seq<nat>>, ghost ts: seq<Tagged>, f: Form)
    returns (ok: bool, huffs: seq<HuffmanCodes.Table>, cs: seq<CTable>, ds: seq<DTable>, ghost bad: nat,
             ghost size: seq<nat>)
    requires IsLayout(y) && Decodable(f) && Tallied(counts, base, ts) && SymbolsFit(y, ts, f) && Countable(ts)
    requires forall t, s :: 0 <= t < 8 && 0 <= s < 256 ==> base[t][s] == 0
    requires forall t :: 0 <= t < 8 && Used(y, t, f) ==> Uses(ts, t)
    ensures ok ==> TablesMatch(y, huffs, cs, ds, f) && AllCoded(cs, ts)
    ensures !ok ==> HuffmanGenerator.Optimal(Counts(Only(ts, bad)) + [1], size) &&
                    exists i :: 0 <= i < |size| && size[i] > CodeLengths.MAX_CLEN
  {
    hide Only, Coded, HuffmanGenerator.Optimal, SymbolsFit, Uses, Matched, Tallied, Countable, IsCTable;
    var none := NoTable();
    var did := seq(8, _ => false);
    huffs, cs := seq(8, _ => HuffmanCodes.Table([], [])), seq(8, _ => none);
    ds := seq(8, _ => DTable([], [], [], [], []));
    bad, size, ok := 0, [], true;
    for ci := 0 to |y.dc|
      invariant |did| == |huffs| == |cs| == |ds| == 8 && AreCTables(cs) && ok
      invariant forall t :: 0 <= t < 8 && did[t] ==> Made(t, huffs, cs, ds, ts)
      invariant forall c :: 0 <= c < ci ==> (f.NextDc? || did[y.dc[c]]) && (f.Whole? ==> did[4 + y.ac[c]])
    {
      for kind := 0 to 2
        invariant |did| == |huffs| == |cs| == |ds| == 8 && AreCTables(cs) && ok
        invariant forall t :: 0 <= t < 8 && did[t] ==> Made(t, huffs, cs, ds, ts)
        invariant forall c :: 0 <= c < ci ==> (f.NextDc? || did[y.dc[c]]) && (f.Whole? ==> did[4 + y.ac[c]])
        invariant (kind > 0 ==> f.NextDc? || did[y.dc[ci]]) && (kind > 1 && f.Whole? ==> did[4 + y.ac[ci]])
      {
        // a refinement needs no DC tables, and a DC scan no AC tables
        var tbl := if kind == 0 then y.dc[ci] else 4 + y.ac[ci];
        if (if kind == 0 then !f.NextDc? else f.Whole?) && !did[tbl] {
          assert Used(y, tbl, f);
          var t, c, d;
          ok, t, c, d, size := BuildOne(counts, tbl, y, base, ts, f);
          if !ok {
            bad := tbl;
            return;
          }
          huffs, cs, ds, did := huffs[tbl := t], cs[tbl := c], ds[tbl := d], did[tbl := true];
        }
      }
    }
    AllMade(y, huffs, cs, ds, ts, did, f);
  }

  lemma AllMade(y: Layout, huffs: seq<HuffmanCodes.Table>, cs: seq<CTable>, ds: seq<DTable>, ts: seq<Tagged>,
                did: seq<bool>, f: Form)
    requires IsLayout(y) && Decodable(f) && |did| == |huffs| == |cs| == |ds| == 8 && AreCTables(cs)
    requires SymbolsFit(y, ts, f)
    requires forall t :: 0 <= t < 8 && did[t] ==> Made(t, huffs, cs, ds, ts)
    requires forall c :: 0 <= c < |y.dc| ==> (f.NextDc? || did[y.dc[c]]) && (f.Whole? ==> did[4 + y.ac[c]])
    ensures TablesMatch(y, huffs, cs, ds, f) && AllCoded(cs, ts)
  {
    hide Only, Matched;
    forall ci | 0 <= ci < |y.dc| ensures TablesFit(y, huffs, cs, ds, f, ci) {
      assert did[y.dc[ci]] ==> Made(y.dc[ci], huffs, cs, ds, ts);
      assert did[4 + y.ac[ci]] ==> Made(4 + y.ac[ci], huffs, cs, ds, ts);
    }
    forall i | 0 <= i < |ts| && ts[i].tok.Sym?
      ensures ts[i].tbl < 8 && ts[i].tok.s < 256 && cs[ts[i].tbl].si[ts[i].tok.s] > 0
    {
      assert Fitting(y, ts[i].tbl, ts[i].tok.s, f);
      var j := OnlyHas(ts, i);
      assert Made(ts[i].tbl, huffs, cs, ds, ts);
    }
  }

  // The round trip ----------------------------------------------------------------------------

  /** The MCUs of a scan as the decoder finds them: cleared, or what the earlier scans left. */
  ghost predicate Expected(coefs: seq<seq<seq<int>>>, vs: seq<seq<seq<int>>>, order: seq<nat>, limits: seq<nat>,
                           f: Form) {
    && IsZigzag(order) && |coefs| == |vs|
    && forall n :: 0 <= n < |coefs| ==> McuState(coefs[n], coefs[n], order, vs[n], limits, 0, f)
  }

  /** The first MCUs decoded: exact below the limits, or with the DC values known to the scan's bit. */
  ghost predicate Decoded(result: seq<seq<seq<int>>>, coefs: seq<seq<seq<int>>>, vs: seq<seq<seq<int>>>,
                          order: seq<nat>, limits: seq<nat>, f: Form)
  {
    && IsZigzag(order) && |result| <= |coefs| == |vs|
    && forall n :: 0 <= n < |result| ==> McuState(result[n], coefs[n], order, vs[n], limits, |vs[n]|, f)
  }

  /** Cleared blocks are as expected in any scan. */
  lemma ClearedExpected(y: Layout, vs: seq<seq<seq<int>>>, order: seq<nat>, limits: seq<nat>, f: Form,
                        coefs: seq<seq<seq<int>>>)
    requires IsZigzag(order) && AreMcus(y, vs) && |limits| == |y.member| && |coefs| == |vs|
    requires forall n :: 0 <= n < |coefs| ==> coefs[n] == seq(|y.member|, _ => seq(64, _ => 0))
    ensures Expected(coefs, vs, order, limits, f)
  {
  }

  lemma StateShape(mcu: seq<seq<int>>, order: seq<nat>, v: seq<seq<int>>, limits: seq<nat>, f: Form)
    requires IsZigzag(order) && McuState(mcu, mcu, order, v, limits, 0, f)
    ensures |mcu| == |v| && forall i :: 0 <= i < |mcu| ==> |mcu[i]| == 64
  {
    hide Zigzag, IsOrder, Partial;
  }

  /** One MCU, called again each time more input has arrived. */
  method DecodeMcu(d: Decoder, blocks: seq<array<int>>, ghost n: nat, ghost was: seq<seq<int>>)
    requires d.Setup() && n < |d.scan.plan.xs| && d.AtMcu(n) && AreArrays(blocks, |d.layout.member|)
    requires McuState(Contents(blocks), was, d.order, d.scan.plan.xs[n], d.coef_limit, 0, d.form)
    modifies d, d.scan, d.scan.reader, blocks
    ensures d.AtMcu(n + 1)
    ensures McuState(Contents(blocks), was, d.order, d.scan.plan.xs[n], d.coef_limit, |d.scan.plan.xs[n]|, d.form)
  {
    hide Decoder.AtMcu, GoodScan, TablesMatch, ScanReader.Setup, LimitsFit, IsOrder, McuState, Contents, AreArrays;
    var ok := d.Decode(blocks, n, was);
    while !ok
      invariant if ok then d.AtMcu(n + 1) else d.AtMcu(n) && d.scan.reader.avail < |d.scan.reader.src|
      invariant var done := if ok then |d.scan.plan.xs[n]| else 0;
        McuState(Contents(blocks), was, d.order, d.scan.plan.xs[n], d.coef_limit, done, d.form)
      decreases |d.scan.reader.src| - d.scan.reader.avail
    {
      var more: nat :| d.scan.reader.avail < more <= |d.scan.reader.src|;
      d.Deliver(more, n);
      ok := d.Decode(blocks, n, was);
    }
  }

  /** Decodes all MCUs; whenever the decoder is starved some more bytes arrive, and it is called
      again. Whatever the portions, the outcome is the same. */
  method DecodeScan(d: Decoder, coefs: seq<seq<seq<int>>>) returns (result: seq<seq<seq<int>>>)
    requires d.Setup() && d.AtMcu(0) && AreMcus(d.layout, d.scan.plan.xs) && |d.coef_limit| == |d.layout.member|
    requires Expected(coefs, d.scan.plan.xs, d.order, d.coef_limit, d.form)
    modifies d, d.scan, d.scan.reader
    ensures |result| == |coefs| && Decoded(result, coefs, d.scan.plan.xs, d.order, d.coef_limit, d.form)
    ensures d.AtMcu(|coefs|)
  {
    hide Decoder.AtMcu, GoodScan, TablesMatch, ScanReader.Setup, LimitsFit, IsOrder, McuState, IsLayout, AreArrays;
    result := [];
    while |result| < |coefs|
      invariant |result| <= |coefs| && d.AtMcu(|result|)
      invariant Decoded(result, coefs, d.scan.plan.xs, d.order, d.coef_limit, d.form)
    {
      ghost var n, v := |result|, d.scan.plan.xs[|result|];
      StateShape(coefs[n], d.order, v, d.coef_limit, d.form);
      var blocks := LoadBlocks(coefs[|result|]);
      DecodeMcu(d, blocks, n, coefs[n]);
      var one := TakeBlocks(blocks);
      result := result + [one];
    }
  }

  /** The round trip of a sequential or progressive DC scan: whatever the MCUs, layout, restart interval,
      bytes around the scan and portions in which it is delivered. The statistics pass rejects exactly
      the values that cannot be coded; the tables it leads to never miss a code; and decoding
      restores every block up to its coefficient limit, or its DC value down to the scan's bit. */
  method CodeAndDecode(mcus: seq<seq<seq<int>>>, coefs: seq<seq<seq<int>>>, y: Layout, f: Form, order: seq<nat>,
                       interval: nat, limits: seq<nat>, needed: seq<bool>, dest: seq<int>, marker: int,
                       tail: seq<int>, delivered: nat)
    returns (inRange: bool, ok: bool, result: seq<seq<seq<int>>>, ghost bad: nat, ghost size: seq<nat>)
    requires IsLayout(y) && Decodable(f) && NaturalMcus(y, mcus) && |mcus| > 0 && IsZigzag(order) && Covered(y)
    requires LimitsFit(y, limits, needed, f)
    requires 0 < marker < 0xFF && delivered <= |dest|
    requires Expected(coefs, ZigzagMcus(y, mcus, order), order, limits, f)
    requires Countable(ScanTokens(y, ZigzagMcus(y, mcus, order), interval, f))
    ensures inRange <==> ScanInRange(y, ZigzagMcus(y, mcus, order), interval, f)
    ensures inRange && !ok ==>
      HuffmanGenerator.Optimal(Counts(Only(ScanTokens(y, ZigzagMcus(y, mcus, order), interval, f), bad)) + [1], size) &&
      exists i :: 0 <= i < |size| && size[i] > CodeLengths.MAX_CLEN
    ensures inRange && ok ==>
      |result| == |mcus| && Decoded(result, coefs, ZigzagMcus(y, mcus, order), order, limits, f)
  {
    hide ScanTokens, ScanInRange, Tallied, Countable, IsOrder, ZigzagMcu, Decoded, SymbolsFit, Uses, AllCoded;
    hide TablesMatch;
    hide HuffmanGenerator.Optimal, Counts, Only, LimitsFit, ScanCoded, ScanBytes, Covered, Used, McuState;
    ghost var vs := ZigzagMcus(y, mcus, order);
    ghost var ts := ScanTokens(y, vs, interval, f);
    var counts := new nat[8, 257]((_, _) => 0);
    ghost var base: seq<seq<nat>> := seq(8, _ => seq(257, _ => 0));
    NothingTallied(counts, base);
    var none := NoTable();
    ok, result, bad, size := false, [], 0, [];
    inRange := GatherScan(mcus, y, order, f, interval, counts, base, seq(8, _ => none));
    if !inRange {
      return;
    }
    assert vs[..|vs|] == vs;
    FitScan(y, vs, interval, |vs|, f);
    forall t | 0 <= t < 8 && Used(y, t, f) ensures Uses(ts, t) {
      ScanUses(y, vs, interval, t, f);
    }
    var huffs, cs, ds;
    ok, huffs, cs, ds, bad, size := FinishGather(counts, y, base, ts, f);
    if !ok {
      return;
    }
    TablesAre8(y, huffs, cs, ds, f);
    var fine, out;
    ghost var codes;
    fine, out, codes := EncodeScan(mcus, y, cs, order, f, interval, dest);
    assert fine;
    result := DecodeBack(coefs, y, f, order, interval, limits, needed, out, marker, tail, |dest|, delivered, huffs, cs,
                         ds,
      dest, vs, codes);
  }

  lemma NothingTallied(counts: array2<nat>, base: seq<seq<nat>>)
    requires counts.Length0 == |base| == 8 && counts.Length1 == 257 && forall t :: 0 <= t < 8 ==> |base[t]| == 257
    requires forall t, s :: 0 <= t < 8 && 0 <= s < 257 ==> counts[t, s] == base[t][s] == 0
    ensures Tallied(counts, base, [])
  {
  }

  lemma TablesAre8(y: Layout, huffs: seq<HuffmanCodes.Table>, cs: seq<CTable>, ds: seq<DTable>, f: Form)
    requires TablesMatch(y, huffs, cs, ds, f)
    ensures AreCTables(cs)
  {
    hide Matched;
  }

  method DecodeBack(coefs: seq<seq<seq<int>>>, y: Layout, f: Form, order: seq<nat>, interval: nat, limits: seq<nat>,
                    needed: seq<bool>, out: seq<int>, marker: int, tail: seq<int>, at: nat, delivered: nat,
                    huffs: seq<HuffmanCodes.Table>, cs: seq<CTable>, ds: seq<DTable>, ghost dest: seq<int>,
                    ghost vs: seq<seq<seq<int>>>, ghost codes: seq<seq<int>>)
    returns (result: seq<seq<seq<int>>>)
    requires IsLayout(y) && Decodable(f) && AreMcus(y, vs) && IsZigzag(order) && LimitsFit(y, limits, needed, f)
    requires Expected(coefs, vs, order, limits, f)
    requires 0 < marker < 0xFF && delivered <= at == |dest| && TablesMatch(y, huffs, cs, ds, f)
    requires AllCoded(cs, ScanTokens(y, vs, interval, f)) && ScanInRange(y, vs, interval, f)
    requires |codes| > 0 && ScanCoded(y, cs, vs, interval, f, codes)
    requires out == ScanBytes(dest, codes[..|codes| - 1], codes[|codes| - 1])
    ensures |result| == |coefs| && Decoded(result, coefs, vs, order, limits, f)
  {
    hide Matched, ScanCoded, AllCoded, ScanTokens, ScanInRange, SplitBy, GoodScan, GoodPlan, EndOf, InSource, IsOrder;
    hide Decoded, Expected;
    hide Reader.Valid, Reader.Ahead, Remaining, ScanBytes, IsCTable, ByteBits, IsBytes, Decoder.AtMcu;
    hide ScanReader.AtItem, ScanAt;
    ScanLonger(dest, codes[..|codes| - 1], codes[|codes| - 1]);
    var src := out + [0xFF, marker] + tail;
    SplitMcus(y, vs, interval);
    ghost var plan := Plan(vs, interval, at, codes, PlanBits(y, cs, SegmentsOf(vs, interval), f));
    CodesAreBytes(y, cs, vs, interval, codes, f);
    ScanStarts(at, codes, src, dest, marker, tail);
    EncodedIsGood(plan, y, cs, src, f);
    GoodHasPlan(plan, y, cs, src, f);
    var reader := new Reader(src, at, delivered, codes[0], EndOf(at, codes, 0));
    var scan := new ScanReader<seq<seq<int>>>(reader, interval, plan);
    var d := new Decoder(scan, y, f, ds, limits, order, huffs, cs, needed);
    result := DecodeScan(d, coefs);
  }

  lemma CodesAreBytes(y: Layout, cs: seq<CTable>, vs: seq<seq<seq<int>>>, interval: nat, codes: seq<seq<int>>, f: Form)
    requires IsLayout(y) && Decodable(f) && AreMcus(y, vs) && AreCTables(cs) && ScanCoded(y, cs, vs, interval, f, codes)
    ensures forall i :: 0 <= i < |codes| ==> IsBytes(codes[i])
  {
    hide TaggedBits, SegmentTokens, SplitBy, AreCTables;
  }

  lemma GoodHasPlan(p: Plan<seq<seq<int>>>, y: Layout, cs: seq<CTable>, src: seq<int>, f: Form)
    requires GoodScan(p, y, cs, src, f)
    ensures GoodPlan(p, src) && |p.codes| > 0
  {
    hide ScanAt, Padded, SplitBy, AllCoded, ScanTokens, PlanBits, AreCTables;
  }
}
