/** Statistics pass, tables, output pass and decoding of a progressive AC scan, end to end. */
module BandRoundTrip {
  import opened Numbers
  import opened Bits
  import opened BitReader
  import opened Tokens
  import opened Values
  import opened BandPlan
  import opened BandStream
  import opened BandEncoder
  import opened BandDecoder
  import opened BandScan
  import opened BandScanDecoder
  import opened ScanReader
  import opened Segments
  import opened Restarts
  import opened TwoPass
  import HuffmanTree
  import CodeLengths
  import HuffmanGenerator
  import HuffmanCodes

  // Which symbols an AC scan uses ---------------------------------------------------

  lemma SparseConcat(s: seq<Token>, t: seq<Token>)
    requires Sparse(s) && Sparse(t)
    ensures Sparse(s + t)
  {
  }

  lemma HasConcat(s: seq<Token>, t: seq<Token>)
    ensures HasSymbol(s) || HasSymbol(t) ==> HasSymbol(s + t)
  {
    if HasSymbol(s) {
      var i :| 0 <= i < |s| && s[i].Sym?;
      assert (s + t)[i].Sym?;
    }
    if HasSymbol(t) {
      var i :| 0 <= i < |t| && t[i].Sym?;
      assert (s + t)[|s| + i].Sym?;
    }
  }

  /** Codes are symbols 16r + 1 and 0xF0 ... */
  lemma {:induction false} CodesSparse(v: seq<int>, t: seq<nat>, c: nat, eob: nat)
    requires eob < |t| == |v| && (eob > 0 ==> t[eob] == 1)
    ensures Sparse(BlockCodes(v, t, c, eob)) && (BlockCodes(v, t, c, eob) != [] ==> HasSymbol(BlockCodes(v, t, c, eob)))
    decreases eob - c
  {
    hide Corr, Zeros, Stop;
    if eob > 0 && c <= eob {
      var s := Stop(t, c, 0, eob);
      assert Zeros(t, c, c) == 0 by { SpanEmpty(t, c, c); }
      StopIs(t, c, c, eob);
      CodesSparse(v, t, s + 1, eob);
      assert Chunk(v, t, c, s)[0].Sym?;
      SparseConcat(Chunk(v, t, c, s), BlockCodes(v, t, s + 1, eob));
      HasConcat(Chunk(v, t, c, s), BlockCodes(v, t, s + 1, eob));
    }
  }

  /** ... and runs are symbols 16r with r at most 14. */
  lemma FlushSparse(p: Pending)
    requires Sparse(p.tokens) && p.run <= 0x7FFF
    ensures Sparse(FlushRun(p).tokens)
    ensures HasSymbol(p.tokens) || p.run > 0 ==> HasSymbol(FlushRun(p).tokens)
  {
    hide Log2;
    if p.run > 0 {
      Log2Bound(p.run);
      assert EobTokens(p.run)[0].Sym?;
      SparseConcat(p.tokens, EobTokens(p.run));
      SparseConcat(p.tokens + EobTokens(p.run), RawBits(p.bits));
      HasConcat(p.tokens, EobTokens(p.run));
      HasConcat(p.tokens + EobTokens(p.run), RawBits(p.bits));
    }
  }

  /** In a first scan, codes are symbols 16r + n with n at most 10, and 0xF0. */
  lemma {:induction false} FirstSparse(u: seq<int>, k: nat, se: nat)
    requires se < |u| && forall i :: k <= i <= se ==> BitLength(Abs(u[i])) <= MAX_COEF_BITS
    ensures Sparse(FirstCodes(u, k, se)) && (FirstCodes(u, k, se) != [] ==> HasSymbol(FirstCodes(u, k, se)))
    decreases se + 1 - k
  {
    hide BitLength, Abs, Sparse, HasSymbol, ValueTokens;
    var next := Next(u, k, se);
    if k <= se && next <= se {
      var head := if next - k > 15 then [Sym(0xF0)] else ValueTokens(next - k, u[next]);
      var from := if next - k > 15 then k + 16 else next + 1;
      FirstSparse(u, from, se);
      if next - k <= 15 {
        ValueSparse(next - k, u[next]);
      }
      ZrlSparse();
      SparseConcat(head, FirstCodes(u, from, se));
      HasConcat(head, FirstCodes(u, from, se));
    } else {
      assert Sparse([]) by { EmptySparse(); }
    }
  }

  lemma ValueSparse(r: nat, x: int)
    requires r <= 15 && BitLength(Abs(x)) <= MAX_COEF_BITS
    ensures Sparse(ValueTokens(r, x)) && HasSymbol(ValueTokens(r, x))
  {
    hide BitLength, Abs;
    assert ValueTokens(r, x)[0].Sym?;
  }

  lemma ZrlSparse()
    ensures Sparse([Sym(0xF0)]) && HasSymbol([Sym(0xF0)])
  {
    assert [Sym(0xF0)][0].Sym?;
  }

  lemma CodesOfSparse(v: seq<int>, b: Band)
    requires |v| == 64 && IsBand(b) && Expressible(v, b)
    ensures Sparse(CodesOf(v, b)) && (CodesOf(v, b) != [] ==> HasSymbol(CodesOf(v, b)))
  {
    hide Sparse, HasSymbol, BlockCodes, FirstCodes, Eob, BitLength, Shifted;
    if b.first {
      var u := Sent(v, b.al);
      forall i | b.ss <= i <= b.se ensures BitLength(Abs(u[i])) <= MAX_COEF_BITS {
        SentZero(v, b.al, i);
      }
      FirstSparse(u, b.ss, b.se);
    } else {
      CodesSparse(v, Magnitudes(v, b.al), b.ss, Eob(Magnitudes(v, b.al), b));
    }
  }

  lemma AddSparse(p: Pending, v: seq<int>, b: Band)
    requires |v| == 64 && IsBand(b) && Safe(p) && Sparse(p.tokens) && Expressible(v, b)
    ensures var q := AddBlock(p, v, b); Sparse(q.tokens) && (HasSymbol(q.tokens) || q.run > 0)
  {
    hide FlushRun, CodesOf, TailOf, HasTail, Sparse, HasSymbol, Expressible;
    CodesOfSparse(v, b);
    FlushSparse(p);
    var codes := CodesOf(v, b);
    SparseConcat(FlushRun(p).tokens, codes);
    HasConcat(FlushRun(p).tokens, codes);
    NoCodesTail(v, b);
    assert FlushRun(p).run == 0 by { FlushedRun(p); }
    var p1 := if codes == [] then p else FlushRun(p).(tokens := FlushRun(p).tokens + codes);
    var p2 := p1.(run := p1.run + 1, bits := p1.bits + TailOf(v, b));
    FlushSparse(p2);
  }

  lemma NoCodesTail(v: seq<int>, b: Band)
    requires |v| == 64 && IsBand(b)
    ensures CodesOf(v, b) == [] ==> HasTail(v, b)
  {
    hide CodesOf, HasTail;
    if CodesOf(v, b) == [] {
      NoCodesMeansTail(v, b);
    }
  }

  lemma {:induction false} EncodedSparse(vs: seq<seq<int>>, b: Band)
    requires Blocks(vs) && IsBand(b) && AllExpressible(vs, b)
    ensures Sparse(Encoded(vs, b).tokens)
    ensures |vs| > 0 ==> HasSymbol(Encoded(vs, b).tokens) || Encoded(vs, b).run > 0
  {
    hide AddBlock, Safe, HasSymbol, Expressible;
    if |vs| > 0 {
      EncodedSparse(vs[..|vs| - 1], b);
      EncodedSafe(vs[..|vs| - 1], b);
      AddSparse(Encoded(vs[..|vs| - 1], b), vs[|vs| - 1], b);
    }
  }

  lemma SegmentSparse(vs: seq<seq<int>>, b: Band)
    requires Blocks(vs) && IsBand(b) && AllExpressible(vs, b)
    ensures Sparse(SegmentTokens(vs, b)) && (|vs| > 0 ==> HasSymbol(SegmentTokens(vs, b)))
  {
    hide Sparse, HasSymbol, FlushRun, Encoded;
    EncodedSparse(vs, b);
    EncodedSafe(vs, b);
    FlushSparse(Encoded(vs, b));
  }

  lemma {:induction false} FinishedSparse(groups: seq<seq<Token>>)
    requires forall i :: 0 <= i < |groups| ==> Sparse(groups[i])
    ensures Sparse(Finished(groups))
  {
    hide Sparse;
    if |groups| > 0 {
      FinishedSparse(groups[..|groups| - 1]);
      SparseConcat(Finished(groups[..|groups| - 1]), groups[|groups| - 1]);
    } else {
      assert Sparse([]) by { EmptySparse(); }
    }
  }

  lemma EmptySparse()
    ensures Sparse([])
  {
  }

  lemma SplitExpressible(vs: seq<seq<int>>, interval: nat, b: Band)
    requires AllExpressible(vs, b)
    ensures var s := SplitBy(vs, interval);
      && AllExpressible(s.cur, b)
      && forall i :: 0 <= i < |s.groups| ==> AllExpressible(s.groups[i], b)
  {
    hide Expressible;
    SplitAll(vs, interval, v => Expressible(v, b));
  }

  /** A statistics pass counts something, and never a symbol that ends in 1111. */
  lemma ScanSparse(vs: seq<seq<int>>, interval: nat, b: Band)
    requires Blocks(vs) && IsBand(b) && AllExpressible(vs, b)
    ensures Sparse(ScanTokens(vs, interval, b)) && (|vs| > 0 ==> HasSymbol(ScanTokens(vs, interval, b)))
  {
    hide Sparse, HasSymbol, SegmentTokens, Finished, Expressible;
    SplitBlocks(vs, interval);
    SplitExpressible(vs, interval, b);
    var groups := SegmentsOf(vs, interval);
    forall i | 0 <= i < |groups| ensures Sparse(SegmentTokens(groups[i], b)) {
      SegmentSparse(groups[i], b);
    }
    FinishedSparse(TokenGroups(groups, b));
    AllTokens(vs, interval, b);
    var s := SplitBy(vs, interval);
    SegmentSparse(s.cur, b);
    HasConcat(Finished(TokenGroups(s.groups, b)), SegmentTokens(s.cur, b));
  }

  // The round trip -----------------------------------------------------------------------

  /** The round trip of an AC scan: whatever the blocks, the restart interval, the bytes around the
      scan and the portions in which it is delivered. The statistics pass rejects exactly the values
      that cannot be coded; coding with the tables it leads to never misses a code. Decoding a first scan
      turns cleared blocks into the values known down to bit al; decoding a refinement turns what the
      earlier scans knew into each coefficient's value at the next precision. */
  method CodeAndDecode(blocks: seq<seq<int>>, coefs: seq<seq<int>>, order: seq<nat>, b: Band, interval: nat,
                       dest: seq<int>, marker: int, tail: seq<int>, delivered: nat)
    returns (inRange: bool, ok: bool, result: seq<seq<int>>, ghost size: seq<nat>)
    requires NaturalBlocks(blocks) && |blocks| > 0 && IsOrder(order) && IsBand(b) && 0 < marker < 0xFF
    requires delivered <= |dest|
    requires Refinable(coefs, Zigzags(blocks, order), order, b)
    requires HuffmanTree.Sum(Counts(ScanTokens(Zigzags(blocks, order), interval, b))) <= HuffmanTree.LIMIT
    ensures inRange <==> AllExpressible(Zigzags(blocks, order), b)
    ensures inRange ==> HuffmanGenerator.Optimal(Counts(ScanTokens(Zigzags(blocks, order), interval, b)) + [1], size)
    ensures inRange ==> (ok <==> forall i :: 0 <= i < |size| ==> size[i] <= CodeLengths.MAX_CLEN)
    ensures inRange && ok ==> |result| == |coefs| && Refined(coefs, result, Zigzags(blocks, order), order, b)
  {
    hide Counts, ScanTokens, HuffmanTree.Sum, Coded, Refinable, Refined, Sparse, HasSymbol, ScanCoded, ScanBytes;
    hide Matched, IsCTable;
    hide Expressible, Zigzag, Count, HuffmanCodes.EncodesWith, IsOrder, HuffmanGenerator.Optimal;
    ghost var vs := Zigzags(blocks, order);
    ghost var ks := ScanTokens(vs, interval, b);
    var freq := new nat[257](_ => 0);
    var none := NoTable();
    ghost var codes;
    var error, out;
    ok, result, size := false, [], [];
    inRange, error, out, codes := EncodeScan(blocks, order, b, interval, true, none, freq, dest);
    if !inRange {
      return;
    }
    ScanSparse(vs, interval, b);
    assert freq[..256] == Counts(ks);
    var t, c, d;
    ok, t, c, d, size := TablesFor(freq, false, ks);
    if !ok {
      return;
    }
    MatchedIs(t, c, d);
    var again;
    again, error, out, codes := EncodeScan(blocks, order, b, interval, false, c, freq, dest);
    assert !error;
    result := DecodeBack(coefs, order, b, interval, out, marker, tail, |dest|, delivered, t, c, d, dest, vs, codes);
  }

  lemma MatchedIs(t: HuffmanCodes.Table, c: CTable, d: DTable)
    requires Matched(t, c, d)
    ensures IsCTable(c)
  {
  }

  method DecodeBack(coefs: seq<seq<int>>, order: seq<nat>, b: Band, interval: nat, out: seq<int>, marker: int,
                    tail: seq<int>, at: nat, delivered: nat, ghost t: HuffmanCodes.Table, ghost c: CTable, d: DTable,
                    ghost dest: seq<int>, ghost vs: seq<seq<int>>, ghost codes: seq<seq<int>>)
    returns (result: seq<seq<int>>)
    requires Blocks(vs) && IsOrder(order) && IsBand(b) && 0 < marker < 0xFF && delivered <= at == |dest|
    requires AllExpressible(vs, b)
    requires Refinable(coefs, vs, order, b) && Matched(t, c, d) && IsCTable(c) && Coded(c, ScanTokens(vs, interval, b))
    requires |codes| > 0 && ScanCoded(c, vs, interval, b, codes)
    requires out == ScanBytes(dest, codes[..|codes| - 1], codes[|codes| - 1])
    ensures |result| == |coefs| && Refined(coefs, result, vs, order, b)
  {
    hide Refinable, Refined, Matched, ScanCoded, Coded, ScanTokens, SplitBy, KindsFit, GoodScan, GoodPlan, EndOf;
    hide InSource;
    hide IsOrder, Reader.Valid, Reader.Ahead, Remaining, RunOf, ScanBytes, IsCTable, ByteBits, IsBytes;
    hide ScanDecoder.AtBlock, ScanReader.AtItem, ScanAt, Expressible;
    ScanLonger(dest, codes[..|codes| - 1], codes[|codes| - 1]);
    var src := out + [0xFF, marker] + tail;
    SplitBlocks(vs, interval);
    ghost var kinds := FindKinds(SegmentsOf(vs, interval), b);
    ghost var plan := Plan(vs, interval, at, codes, PlanBits(SegmentsOf(vs, interval), kinds, b, c));
    CodesAreBytes(c, vs, interval, b, codes);
    ScanStarts(at, codes, src, dest, marker, tail);
    EncodedIsGood(plan, kinds, b, c, src);
    GoodHasPlan(plan, kinds, b, c, src);
    var reader := new Reader(src, at, delivered, codes[0], EndOf(at, codes, 0));
    var scan := new ScanReader<seq<int>>(reader, interval, plan);
    var mcu := new Decoder(reader, d, t, c);
    var sd := new ScanDecoder(scan, mcu, order, b, kinds);
    RefinableLength(coefs, vs, order, b);
    result := DecodeScan(sd, coefs);
  }

  lemma CodesAreBytes(c: CTable, vs: seq<seq<int>>, interval: nat, b: Band, codes: seq<seq<int>>)
    requires Blocks(vs) && IsBand(b) && IsCTable(c) && ScanCoded(c, vs, interval, b, codes)
    ensures forall i :: 0 <= i < |codes| ==> IsBytes(codes[i])
  {
    hide AllBits, SegmentTokens, SplitBy;
  }

  lemma GoodHasPlan(p: Plan<seq<int>>, kinds: seq<seq<Kind>>, b: Band, c: CTable, src: seq<int>)
    requires GoodScan(p, kinds, b, c, src)
    ensures GoodPlan(p, src) && |kinds| > 0 && |p.codes| > 0
  {
    hide ScanAt, Padded, SplitBy, Coded, ScanTokens, PlanBits;
  }

  lemma RefinableLength(coefs: seq<seq<int>>, vs: seq<seq<int>>, order: seq<nat>, b: Band)
    ensures Refinable(coefs, vs, order, b) ==> |coefs| == |vs|
  {
  }
}
