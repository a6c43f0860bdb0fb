/** A whole progressive AC scan: encoding a component's blocks with restarts, and decoding them
    from a source that delivers its bytes in arbitrary portions. */
module BandScan {
  import opened ByteStuffing
  import opened Tokens
  import opened BandPlan
  import opened BandStream
  import opened BandEncoder
  import opened Segments
  import opened Restarts

  ghost predicate NaturalBlocks(blocks: seq<seq<int>>) {
    forall i :: 0 <= i < |blocks| ==> |blocks[i]| == 64
  }

  ghost function Zigzags(blocks: seq<seq<int>>, order: seq<nat>): (vs: seq<seq<int>>)
    requires NaturalBlocks(blocks) && IsOrder(order)
    ensures |vs| == |blocks| && Blocks(vs) && forall i :: 0 <= i < |vs| ==> vs[i] == Zigzag(blocks[i], order)
  {
    seq(|blocks|, i requires 0 <= i < |blocks| => Zigzag(blocks[i], order))
  }

  ghost predicate AllExpressible(vs: seq<seq<int>>, b: Band) {
    forall i :: 0 <= i < |vs| ==> Expressible(vs[i], b)
  }

  /** The tokens of a finished segment. */
  ghost function SegmentTokens(vs: seq<seq<int>>, b: Band): seq<Token>
    requires Blocks(vs) && IsBand(b)
  {
    FlushRun(Encoded(vs, b)).tokens
  }

  ghost predicate BlockGroups(groups: seq<seq<seq<int>>>) {
    forall i :: 0 <= i < |groups| ==> Blocks(groups[i])
  }

  ghost function TokenGroups(groups: seq<seq<seq<int>>>, b: Band): (r: seq<seq<Token>>)
    requires BlockGroups(groups) && IsBand(b)
    ensures |r| == |groups| && forall i :: 0 <= i < |r| ==> r[i] == SegmentTokens(groups[i], b)
  {
    seq(|groups|, i requires 0 <= i < |groups| => SegmentTokens(groups[i], b))
  }

  lemma SplitBlocks(vs: seq<seq<int>>, interval: nat)
    requires Blocks(vs)
    ensures var s := SplitBy(vs, interval); BlockGroups(s.groups) && Blocks(s.cur)
    ensures BlockGroups(SegmentsOf(vs, interval))
  {
    SplitAll(vs, interval, v => |v| == 64);
  }

  lemma EncodedSnoc(cur: seq<seq<int>>, v: seq<int>, b: Band)
    requires Blocks(cur) && |v| == 64 && IsBand(b)
    ensures Encoded(cur + [v], b) == AddBlock(Encoded(cur, b), v, b) && Encoded([], b) == Pending([], 0, [])
  {
    assert (cur + [v])[..|cur|] == cur;
  }

  /** The tokens of the whole scan. */
  ghost function ScanTokens(vs: seq<seq<int>>, interval: nat, b: Band): seq<Token>
    requires Blocks(vs) && IsBand(b)
  {
    SplitBlocks(vs, interval);
    Finished(TokenGroups(SegmentsOf(vs, interval), b))
  }

  /** The scan's bytes: each segment spells its tokens. */
  ghost predicate ScanCoded(c: CTable, vs: seq<seq<int>>, interval: nat, b: Band, codes: seq<seq<int>>)
    requires Blocks(vs) && IsBand(b) && IsCTable(c)
  {
    SplitBlocks(vs, interval);
    var groups := SegmentsOf(vs, interval);
    |codes| == |groups| && forall i :: 0 <= i < |codes| ==> Padded(codes[i], AllBits(c, SegmentTokens(groups[i], b)))
  }

  /** A statistics or output pass over a whole scan. */
  method EncodeScan(blocks: seq<seq<int>>, order: seq<nat>, b: Band, interval: nat, gather: bool, table: CTable,
                    counts: array<nat>, dest: seq<int>)
    returns (inRange: bool, error: bool, out: seq<int>, ghost codes: seq<seq<int>>)
    requires NaturalBlocks(blocks) && IsOrder(order) && IsBand(b) && IsCTable(table) && counts.Length == 257
    modifies counts
    ensures inRange <==> AllExpressible(Zigzags(blocks, order), b)
    ensures var vs := Zigzags(blocks, order);
      inRange ==>
      if gather then forall s :: 0 <= s < 256 ==> counts[s] == old(counts[s]) + Count(ScanTokens(vs, interval, b), s)
      else && (error <==> !Coded(table, ScanTokens(vs, interval, b))) && |codes| > 0
           && ScanCoded(table, vs, interval, b, codes)
           && out == ScanBytes(dest, codes[..|codes| - 1], codes[|codes| - 1])
  {
    hide Encoder.Recorded, Safe, Encoded, SplitBy, AddBlock, FlushRun, Finished, ScanBytes, TokenGroups;
    hide Count, Coded, AllBits, Padded, IsCTable, Stuff, ScanTokens, ScanCoded, Encoder.Counted, Encoder.Output;
    hide Encoder.Valid;
    hide Zigzag, IsOrder, Expressible;
    var enc := new Encoder(gather, table, counts, interval, dest);
    ghost var vs := Zigzags(blocks, order);
    ghost var s0 := counts[..];
    inRange, error, out, codes := true, false, dest, [];
    StartSplit(vs, interval, b);
    for i := 0 to |blocks|
      invariant Standing(enc, vs[..i], b) && fresh(enc) && fresh(enc.writer) && fresh(enc.bit_buffer)
      invariant enc.gather == gather && enc.table == table && enc.counts == counts && enc.restart_interval == interval
      invariant enc.start == dest && enc.base == s0 && AllExpressible(vs[..i], b)
    {
      SplitStep(vs, interval, b, i);
      assert |blocks[i]| == 64 && vs[i] == Zigzag(blocks[i], order);
      inRange := enc.Encode(blocks[i], order, b);
      if !inRange {
        return;
      }
    }
    assert vs[..|blocks|] == vs;
    ghost var s := SplitBy(vs, interval);
    enc.Finish();
    error, out := enc.error, enc.writer.out;
    AllTokens(vs, interval, b);
    if gather {
      CountedAll(enc, ScanTokens(vs, interval, b));
    } else {
      codes := enc.codes + [enc.writer.data];
      assert codes[..|codes| - 1] == enc.codes;
      OutputAll(enc, vs, interval, b);
    }
  }

  /** Where the encoder stands after the blocks vs. */
  ghost predicate Standing(enc: Encoder, vs: seq<seq<int>>, b: Band)
    reads enc, enc.writer, enc.counts, enc.bit_buffer
  {
    && Blocks(vs) && IsBand(b) && enc.Valid() && enc.be <= enc.bit_buffer.Length
    && var s := SplitBy(vs, enc.restart_interval);
       && BlockGroups(s.groups) && Blocks(s.cur) && enc.segments == TokenGroups(s.groups, b)
       && enc.Pend() == Encoded(s.cur, b) && enc.restarts_to_go == s.togo
  }

  lemma StartSplit(vs: seq<seq<int>>, interval: nat, b: Band)
    requires Blocks(vs) && IsBand(b)
    ensures vs[..0] == [] && SplitBy(vs[..0], interval) == Split([], [], interval) && BlockGroups([]) && Blocks([])
    ensures TokenGroups([], b) == [] && Encoded([], b) == Pending([], 0, [])
  {
  }

  lemma SplitStep(vs: seq<seq<int>>, interval: nat, b: Band, i: nat)
    requires Blocks(vs) && IsBand(b) && i < |vs|
    ensures var s, s' := SplitBy(vs[..i], interval), SplitBy(vs[..i + 1], interval);
      && BlockGroups(s.groups) && Blocks(s.cur) && BlockGroups(s'.groups) && Blocks(s'.cur)
      && var restart := interval > 0 && s.togo == 0;
         && s'.togo == (if interval == 0 then s.togo else if restart then interval - 1 else s.togo - 1)
         && Encoded(s'.cur, b) == AddBlock(if restart then Pending([], 0, []) else Encoded(s.cur, b), vs[i], b)
         && TokenGroups(s'.groups, b) ==
            TokenGroups(s.groups, b) + (if restart then [SegmentTokens(s.cur, b)] else [])
  {
    hide AddBlock, SegmentTokens, Encoded;
    SplitBlocks(vs[..i], interval);
    SplitBlocks(vs[..i + 1], interval);
    assert vs[..i + 1][..i] == vs[..i];
    var s, s' := SplitBy(vs[..i], interval), SplitBy(vs[..i + 1], interval);
    if interval > 0 && s.togo == 0 {
      EncodedSnoc([], vs[i], b);
      assert [] + [vs[i]] == [vs[i]];
      assert TokenGroups(s'.groups, b) == TokenGroups(s.groups, b) + [SegmentTokens(s.cur, b)];
    } else {
      EncodedSnoc(s.cur, vs[i], b);
      assert TokenGroups(s'.groups, b) == TokenGroups(s.groups, b) + [];
    }
  }

  lemma AllTokens(vs: seq<seq<int>>, interval: nat, b: Band)
    requires Blocks(vs) && IsBand(b)
    ensures var s := SplitBy(vs, interval);
      && BlockGroups(s.groups) && Blocks(s.cur)
      && ScanTokens(vs, interval, b) == Finished(TokenGroups(s.groups, b)) + SegmentTokens(s.cur, b)
  {
    hide SegmentTokens;
    SplitBlocks(vs, interval);
    var s := SplitBy(vs, interval);
    FinishedSnoc(TokenGroups(s.groups, b), SegmentTokens(s.cur, b));
    assert TokenGroups(SegmentsOf(vs, interval), b) == TokenGroups(s.groups, b) + [SegmentTokens(s.cur, b)];
  }

  lemma CountedAll(enc: Encoder, all: seq<Token>)
    requires enc.counts.Length == |enc.base| == 257 && enc.Counted() && all == Finished(enc.segments) + enc.tokens
    ensures forall s :: 0 <= s < 256 ==> enc.counts[s] == enc.base[s] + Count(all, s)
  {
  }

  lemma OutputAll(enc: Encoder, vs: seq<seq<int>>, interval: nat, b: Band)
    requires Blocks(vs) && IsBand(b) && IsCTable(enc.table) && enc.Output()
    requires var s := SplitBy(vs, interval);
      && BlockGroups(s.groups) && Blocks(s.cur)
      && enc.segments == TokenGroups(s.groups, b) && enc.tokens == SegmentTokens(s.cur, b)
    requires Padded(enc.writer.data, AllBits(enc.table, enc.tokens))
    ensures enc.error <==> !Coded(enc.table, Finished(enc.segments) + enc.tokens)
    ensures ScanCoded(enc.table, vs, interval, b, enc.codes + [enc.writer.data])
  {
    hide SegmentTokens, SplitBy, Padded, AllBits, Coded;
    SplitBlocks(vs, interval);
    assert SegmentsOf(vs, interval) ==
      SplitBy(vs, interval).groups + [SplitBy(vs, interval).cur] by { ParkSegments(vs, interval); }
  }

  lemma ParkSegments(vs: seq<seq<int>>, interval: nat)
    ensures SegmentsOf(vs, interval) == SplitBy(vs, interval).groups + [SplitBy(vs, interval).cur]
  {
  }
}
