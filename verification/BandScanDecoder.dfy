/** Decoding a whole progressive AC scan: blocks in order, restart markers between segments, and
    a source whose bytes may arrive in any portions. */
module BandScanDecoder {
  import opened BitReader
  import opened Tokens
  import opened BandPlan
  import opened BandStream
  import opened BandEncoder
  import opened BandDecoder
  import opened BandScan
  import opened Segments
  import opened Restarts
  import opened ScanReader

  /** Each segment's blocks with their places in the end-of-band runs. */
  ghost predicate KindsFit(groups: seq<seq<seq<int>>>, kinds: seq<seq<Kind>>, b: Band)
    requires BlockGroups(groups) && IsBand(b)
  {
    && |kinds| == |groups|
    && forall i :: 0 <= i < |groups| ==>
         |kinds[i]| == |groups[i]| && OkStream(groups[i], kinds[i], b) &&
         SegmentTokens(groups[i], b) == Stream(groups[i], kinds[i], b)
  }

  lemma {:induction false} FindKinds(groups: seq<seq<seq<int>>>, b: Band) returns (kinds: seq<seq<Kind>>)
    requires BlockGroups(groups) && IsBand(b)
    ensures KindsFit(groups, kinds, b)
  {
    hide Stream, OkStream, Encoded, FlushRun;
    var n := |groups| - 1;
    if n < 0 {
      kinds := [];
    } else {
      var ks := FindKinds(groups[..n], b);
      var k := SegmentIsStream(groups[n], b);
      kinds := ks + [k];
    }
  }

  /** The bits of each block of a segment. */
  ghost function ItemBits(vs: seq<seq<int>>, ks: seq<Kind>, b: Band, c: CTable): (r: seq<seq<int>>)
    requires |ks| == |vs| && Blocks(vs) && IsBand(b) && IsCTable(c)
    ensures |r| == |vs| && forall j :: 0 <= j < |r| ==> r[j] == AllBits(c, ItemTokens(vs[j], b, ks[j]))
  {
    seq(|vs|, j requires 0 <= j < |vs| => AllBits(c, ItemTokens(vs[j], b, ks[j])))
  }

  lemma {:induction false} StreamBits(vs: seq<seq<int>>, ks: seq<Kind>, b: Band, c: CTable)
    requires |ks| == |vs| && Blocks(vs) && IsBand(b) && IsCTable(c)
    ensures Concat(ItemBits(vs, ks, b, c)) == AllBits(c, Stream(vs, ks, b))
  {
    hide ItemTokens, AllBits;
    var n := |vs| - 1;
    if n < 0 {
      assert AllBits(c, []) == [] by { NoTokens(c); }
    } else {
      StreamBits(vs[..n], ks[..n], b, c);
      AllBitsConcat(c, Stream(vs[..n], ks[..n], b), ItemTokens(vs[n], b, ks[n]));
      assert ItemBits(vs, ks, b, c)[..n] == ItemBits(vs[..n], ks[..n], b, c);
    }
  }

  ghost function PlanBits(groups: seq<seq<seq<int>>>, kinds: seq<seq<Kind>>, b: Band,
                          c: CTable): (r: seq<seq<seq<int>>>)
    requires BlockGroups(groups) && IsBand(b) && IsCTable(c) && KindsFit(groups, kinds, b)
    ensures |r| == |groups| && forall g :: 0 <= g < |r| ==> r[g] == ItemBits(groups[g], kinds[g], b, c)
  {
    seq(|groups|, g requires 0 <= g < |groups| => ItemBits(groups[g], kinds[g], b, c))
  }

  /** The scan the decoder reads is that of these blocks. */
  ghost predicate GoodScan(p: Plan<seq<int>>, kinds: seq<seq<Kind>>, b: Band, c: CTable, src: seq<int>) {
    var groups := SegmentsOf(p.xs, p.interval);
    && Blocks(p.xs) && IsBand(b) && IsCTable(c) && GoodPlan(p, src) && BlockGroups(groups) && KindsFit(groups, kinds, b)
    && p.bits == PlanBits(groups, kinds, b, c) && Coded(c, ScanTokens(p.xs, p.interval, b)) && AllExpressible(p.xs, b)
  }

  /** What an encoder leaves behind is a good scan. */
  lemma EncodedIsGood(p: Plan<seq<int>>, kinds: seq<seq<Kind>>, b: Band, c: CTable, src: seq<int>)
    requires Blocks(p.xs) && IsBand(b) && IsCTable(c) && ScanAt(src, p.start, p.codes) && AllExpressible(p.xs, b)
    requires ScanCoded(c, p.xs, p.interval, b, p.codes) && Coded(c, ScanTokens(p.xs, p.interval, b))
    requires BlockGroups(SegmentsOf(p.xs, p.interval)) && KindsFit(SegmentsOf(p.xs, p.interval), kinds, b)
    requires p.bits == PlanBits(SegmentsOf(p.xs, p.interval), kinds, b, c)
    ensures GoodScan(p, kinds, b, c, src)
  {
    hide Coded, AllBits, SegmentTokens, SplitBy, Stream, OkStream, ScanAt, Padded, ScanTokens;
    var groups := SegmentsOf(p.xs, p.interval);
    forall g | 0 <= g < |p.bits| ensures Padded(p.codes[g], Concat(p.bits[g])) {
      StreamBits(groups[g], kinds[g], b, c);
    }
  }

  /** Block j of segment g, to which the end-of-band run after the first j blocks has come. */
  lemma BlockAhead(p: Plan<seq<int>>, kinds: seq<seq<Kind>>, b: Band, c: CTable, src: seq<int>, g: nat, j: nat)
    requires GoodScan(p, kinds, b, c, src) && g < |p.bits| && j < |p.bits[g]|
    ensures g < |kinds| && j < |kinds[g]|
    ensures var v, k := SegmentsOf(p.xs, p.interval)[g][j], kinds[g][j];
      && |v| == 64 && OkItem(v, b, k, RunOf(kinds[g][..j])) && Coded(c, ItemTokens(v, b, k))
      && RunOf(kinds[g][..j + 1]) == RunAfter(RunOf(kinds[g][..j]), k)
      && p.bits[g][j] == AllBits(c, ItemTokens(v, b, k))
  {
    hide Encoded, FlushRun, ItemTokens, OkItem, AllBits, Coded, IsCTable, SegmentsOf, GoodPlan;
    var vs, ks := SegmentsOf(p.xs, p.interval)[g], kinds[g];
    var rest := StreamPrefix(vs, ks, b, j + 1);
    assert vs[..j + 1][..j] == vs[..j] && ks[..j + 1][..j] == ks[..j];
    var done, item := Stream(vs[..j], ks[..j], b), ItemTokens(vs[j], b, ks[j]);
    assert Stream(vs[..j + 1], ks[..j + 1], b) == done + item;
    SegmentCoded(p.xs, p.interval, b, c, g);
    CodedSplit(c, done + item, rest);
    CodedSplit(c, done, item);
  }

  lemma {:induction false} StreamPrefix(vs: seq<seq<int>>, ks: seq<Kind>, b: Band, j: nat) returns (rest: seq<Token>)
    requires |ks| == |vs| && Blocks(vs) && IsBand(b) && j <= |vs|
    ensures Stream(vs, ks, b) == Stream(vs[..j], ks[..j], b) + rest
    ensures OkStream(vs, ks, b) ==> OkStream(vs[..j], ks[..j], b)
  {
    hide ItemTokens, OkItem;
    var n := |vs| - 1;
    if j == |vs| {
      rest := [];
      assert vs[..j] == vs && ks[..j] == ks;
    } else {
      var r := StreamPrefix(vs[..n], ks[..n], b, j);
      assert vs[..n][..j] == vs[..j] && ks[..n][..j] == ks[..j];
      rest := r + ItemTokens(vs[n], b, ks[n]);
    }
  }

  lemma SegmentCoded(vs: seq<seq<int>>, interval: nat, b: Band, c: CTable, g: nat)
    requires Blocks(vs) && IsBand(b) && IsCTable(c) && Coded(c, ScanTokens(vs, interval, b))
    requires g < |SegmentsOf(vs, interval)| && BlockGroups(SegmentsOf(vs, interval))
    ensures Coded(c, SegmentTokens(SegmentsOf(vs, interval)[g], b))
  {
    hide SegmentTokens, Coded, SegmentsOf;
    var groups := TokenGroups(SegmentsOf(vs, interval), b);
    var before, after := FinishedAround(groups, g);
    CodedSplit(c, before + groups[g], after);
    CodedSplit(c, before, groups[g]);
  }

  lemma {:induction false} FinishedAround(groups: seq<seq<Token>>, g: nat)
    returns (before: seq<Token>, after: seq<Token>)
    requires g < |groups|
    ensures Finished(groups) == before + groups[g] + after
  {
    var n := |groups| - 1;
    if g == n {
      before, after := Finished(groups[..n]), [];
    } else {
      before, after := FinishedAround(groups[..n], g);
      after := after + groups[n];
    }
  }

  class ScanDecoder {
    const scan: ScanReader<seq<int>>
    const mcu: Decoder
    const b: Band
    const order: seq<nat>
    ghost const kinds: seq<seq<Kind>>

    ghost predicate Setup() {
      && IsOrder(order) && mcu.reader == scan.reader && scan.Setup() && IsBand(b)
      && Matched(mcu.huff, mcu.codes, mcu.table) && GoodScan(scan.plan, kinds, b, mcu.codes, scan.reader.src)
    }

    /** Before block n, with the end-of-band run the earlier blocks left; if a due restart has
        not been taken yet, what is left of the run does not matter. */
    ghost predicate AtBlock(n: nat)
      requires n <= |scan.plan.xs|
      reads scan, scan.reader, mcu`eobrun
    {
      && scan.AtItem(n) && scan.g < |kinds| && scan.Place(n) <= |kinds[scan.g]|
      && mcu.eobrun == RunOf(kinds[scan.g][..scan.Place(n)])
    }

    constructor (reader: ScanReader<seq<int>>, decoder: Decoder, natural_order: seq<nat>, band: Band,
                 ghost what: seq<seq<Kind>>)
      requires IsOrder(natural_order) && IsBand(band) && decoder.reader == reader.reader && decoder.eobrun == 0
      requires reader.Setup() && reader.AtItem(0) && reader.g == 0 && reader.Place(0) == 0 && |what| > 0
      requires Matched(decoder.huff, decoder.codes, decoder.table)
      requires GoodScan(reader.plan, what, band, decoder.codes, reader.reader.src)
      ensures Setup() && AtBlock(0) && mcu == decoder && scan == reader && order == natural_order && b == band
    {
      hide GoodScan, IsOrder, ScanReader.Inside, ScanReader.Setup, SplitBy, Matched;
      scan, mcu, b, order, kinds := reader, decoder, band, natural_order, what;
      new;
      assert RunOf([]) == 0;
    }

    /** More input arrives. */
    method Deliver(more: nat, ghost n: nat)
      requires n <= |scan.plan.xs| && AtBlock(n) && more <= |scan.reader.src|
      modifies scan.reader`avail
      ensures AtBlock(n) && scan.reader.avail == more
    {
      hide ScanReader.Inside, SplitBy;
      scan.Deliver(more, n);
    }

    /** Block n, with no restart due. */
    method DecodeItem(block: array<int>, ghost n: nat) returns (ok: bool)
      requires Setup() && n < |scan.plan.xs| && AtBlock(n) && (scan.restart_interval == 0 || scan.restarts_to_go > 0)
      requires block.Length == 64
      requires Refining(Zigzag(block[..], order), Zigzag(block[..], order), scan.plan.xs[n], b, b.ss)
      modifies scan`restarts_to_go, mcu`eobrun, block
      modifies scan.reader`pos, scan.reader`marker, scan.reader`get_buffer, scan.reader`bits_left,
               scan.reader`insufficient, scan.reader`m, scan.reader`held
      ensures var z0, z := old(Zigzag(block[..], order)), Zigzag(block[..], order);
        if ok then AtBlock(n + 1) && Refining(z, z0, scan.plan.xs[n], b, b.se + 1)
        else AtBlock(n) && Refining(z, z0, scan.plan.xs[n], b, b.ss) && scan.reader.avail < |scan.reader.src|
    {
      hide GoodScan, IsOrder, Remaining, Live, Reader.Ahead, SplitBy, EndOf, RunOf, Refining, AllBits;
      hide ItemTokens, OkItem, Coded, Zigzag, IsCTable, ScanReader.Setup, Matched;
      ghost var g, j := scan.g, scan.Place(n);
      scan.Next(n);
      MatchedTables();
      BlockAhead(scan.plan, kinds, b, mcu.codes, scan.reader.src, g, j);
      ok := mcu.DecodeMcu(block, order, b, scan.plan.xs[n], kinds[g][j], Remaining(scan.plan, g, j + 1));
      if ok {
        scan.Advance(n);
      }
    }

    /** decode_mcu_AC_first or decode_mcu_AC_refine, with restarts, for block n. */
    method Decode(block: array<int>, ghost n: nat) returns (ok: bool)
      requires Setup() && n < |scan.plan.xs| && AtBlock(n) && block.Length == 64
      requires Refining(Zigzag(block[..], order), Zigzag(block[..], order), scan.plan.xs[n], b, b.ss)
      modifies scan, mcu`eobrun, block
      modifies scan.reader`pos, scan.reader`marker, scan.reader`get_buffer, scan.reader`bits_left,
               scan.reader`insufficient,
               scan.reader`m, scan.reader`held, scan.reader`discarded, scan.reader`next_restart_num, scan.reader`code,
               scan.reader`end
      ensures var z0, z := old(Zigzag(block[..], order)), Zigzag(block[..], order);
        if ok then AtBlock(n + 1) && Refining(z, z0, scan.plan.xs[n], b, b.se + 1)
        else AtBlock(n) && Refining(z, z0, scan.plan.xs[n], b, b.ss) && scan.reader.avail < |scan.reader.src|
    {
      hide AtBlock, Setup, Refining, Zigzag;
      ok := RestartIfDue(n);
      if ok {
        ok := DecodeItem(block, n);
      }
    }

    /** The restart part of the MCU routines: a new segment starts with no run. */
    method RestartIfDue(ghost n: nat) returns (ok: bool)
      requires Setup() && n < |scan.plan.xs| && AtBlock(n)
      modifies scan, mcu`eobrun
      modifies scan.reader`pos, scan.reader`marker, scan.reader`get_buffer, scan.reader`bits_left,
               scan.reader`insufficient,
               scan.reader`m, scan.reader`held, scan.reader`discarded, scan.reader`next_restart_num, scan.reader`code,
               scan.reader`end
      ensures AtBlock(n)
      ensures if ok then scan.restart_interval == 0 || scan.restarts_to_go > 0
              else scan.reader.avail < |scan.reader.src|
    {
      hide GoodScan, IsOrder, RunOf, ScanReader.AtItem, ScanReader.Place, ScanReader.Setup, Matched;
      var restarted;
      ok, restarted := scan.RestartIfDue(n);
      if restarted {
        mcu.eobrun := 0;
        InKinds(n);
        NoRun(kinds, scan.g);
      }
    }

    lemma InKinds(n: nat)
      requires Setup() && n < |scan.plan.xs| && scan.AtItem(n)
      ensures scan.g < |kinds|
    {
      hide GoodPlan, PlanBits, ItemBits, Coded, ScanTokens, SplitBy, SegmentsOf, EndOf, Live;
      assert |scan.plan.bits| == |kinds|;
    }

    lemma NoRun(kinds: seq<seq<Kind>>, g: nat)
      ensures g < |kinds| ==> RunOf(kinds[g][..0]) == 0
    {
    }

    lemma MatchedTables()
      requires Setup()
      ensures IsCTable(mcu.codes) && Blocks(scan.plan.xs) && AllExpressible(scan.plan.xs, b)
    {
    }
  }

  /** Every block of a band as the scan expects it: cleared before a first scan, at the precision the
      earlier scans left before a refinement. */
  ghost predicate Refinable(coefs: seq<seq<int>>, vs: seq<seq<int>>, order: seq<nat>, b: Band) {
    && |coefs| == |vs| && IsOrder(order)
    && forall i :: 0 <= i < |coefs| ==>
         |coefs[i]| == 64 && Refining(Zigzag(coefs[i], order), Zigzag(coefs[i], order), vs[i], b, b.ss)
  }

  /** The first n blocks decoded, nothing outside the band changed. */
  ghost predicate Refined(coefs: seq<seq<int>>, result: seq<seq<int>>, vs: seq<seq<int>>, order: seq<nat>, b: Band) {
    && |result| <= |coefs| == |vs| && IsOrder(order)
    && forall i :: 0 <= i < |result| ==>
         |coefs[i]| == |result[i]| == 64 &&
           Refining(Zigzag(result[i], order), Zigzag(coefs[i], order), vs[i], b, b.se + 1)
  }

  lemma StartOver(z: seq<int>, z0: seq<int>, v: seq<int>, b: Band)
    requires Refining(z, z0, v, b, b.ss)
    ensures Refining(z, z, v, b, b.ss)
  {
    hide Between, Trunc;
  }

  lemma SameOutside(z': seq<int>, z: seq<int>, z0: seq<int>, v: seq<int>, b: Band, k: nat)
    requires Refining(z', z, v, b, k) && Refining(z, z0, v, b, b.ss)
    ensures Refining(z', z0, v, b, k)
  {
    hide Between, Trunc;
  }

  /** Decodes all blocks; whenever the decoder is starved, some more bytes arrive and it is
      called again. Whatever the portions, the outcome is the same. */
  method DecodeScan(d: ScanDecoder, coefs: seq<seq<int>>) returns (result: seq<seq<int>>)
    requires d.Setup() && |coefs| == |d.scan.plan.xs| && d.AtBlock(0) && Refinable(coefs, d.scan.plan.xs, d.order, d.b)
    modifies d.scan, d.mcu, d.scan.reader
    ensures |result| == |coefs| && Refined(coefs, result, d.scan.plan.xs, d.order, d.b)
    ensures d.AtBlock(|coefs|)
  {
    hide GoodScan, IsOrder, ScanDecoder.AtBlock, ScanDecoder.Setup, Refining, Zigzag;
    result := [];
    while |result| < |coefs|
      invariant |result| <= |coefs| && d.AtBlock(|result|) && Refined(coefs, result, d.scan.plan.xs, d.order, d.b)
    {
      ghost var n := |result|;
      var before := coefs[|result|];
      var block := new int[64](k requires 0 <= k < |before| => before[k]);
      assert block[..] == before;
      ghost var z0 := Zigzag(block[..], d.order);
      var ok := d.Decode(block, n);
      while !ok
        invariant if ok then d.AtBlock(n + 1) &&
                             Refining(Zigzag(block[..], d.order), z0, d.scan.plan.xs[n], d.b, d.b.se + 1)
                  else && d.AtBlock(n) && Refining(Zigzag(block[..], d.order), z0, d.scan.plan.xs[n], d.b, d.b.ss)
                       && d.scan.reader.avail < |d.scan.reader.src|
        decreases |d.scan.reader.src| - d.scan.reader.avail
      {
        var more: nat :| d.scan.reader.avail < more <= |d.scan.reader.src|;
        d.Deliver(more, n);
        ghost var z := Zigzag(block[..], d.order);
        StartOver(z, z0, d.scan.plan.xs[n], d.b);
        ok := d.Decode(block, n);
        SameOutside(Zigzag(block[..], d.order), z, z0, d.scan.plan.xs[n], d.b, if ok then d.b.se + 1 else d.b.ss);
      }
      result := result + [block[..]];
    }
  }
}
