/** The progressive Huffman encoder for AC scans, first and refinement: symbols counted or written,
    the pending end-of-band run, and the buffer of correction bits. */
module BandEncoder {
  import opened Numbers
  import opened Bits
  import opened BitWriter
  import opened ByteStuffing
  import opened Segments
  import opened Tokens
  import opened Values
  import opened BandPlan

  /** natural_order: zigzag position to block index. */
  ghost predicate IsOrder(order: seq<nat>) {
    |order| >= 64 && (forall k :: 0 <= k < 64 ==> order[k] < 64) &&
    forall i, j :: 0 <= i < j < 64 ==> order[i] != order[j]
  }

  /** A block's coefficients by zigzag position. */
  ghost function Zigzag(block: seq<int>, order: seq<nat>): (v: seq<int>)
    requires |block| == 64 && IsOrder(order)
    ensures |v| == 64 && forall k :: 0 <= k < 64 ==> v[k] == block[order[k]]
  {
    seq(64, k requires 0 <= k < 64 => block[order[k]])
  }

  lemma ZigzagAt(block: seq<int>, order: seq<nat>, k: nat)
    requires |block| == 64 && IsOrder(order) && k < 64
    ensures |order| >= 64 && order[k] < 64 && Zigzag(block, order)[k] == block[order[k]]
  {
  }

  /** p is p0 after the codes `done`, which force out p0's run. */
  ghost predicate After(p0: Pending, p: Pending, done: seq<Token>) {
    if done == [] then p == p0 else p == FlushRun(p0).(tokens := FlushRun(p0).tokens + done)
  }

  lemma AfterMore(p0: Pending, p: Pending, done: seq<Token>, more: seq<Token>)
    requires After(p0, p, done) && more != []
    ensures After(p0, FlushRun(p).(tokens := FlushRun(p).tokens + more), done + more)
  {
    var q := FlushRun(p0);
    assert q.tokens + done + more == q.tokens + (done + more);
  }

  lemma Reassociate(done: seq<Token>, code: seq<Token>, rest: seq<Token>)
    ensures done + (code + rest) == (done + code) + rest
  {
  }

  lemma StartCodes(v: seq<int>, b: Band, p0: Pending)
    requires |v| == 64 && IsBand(b) && !b.first
    ensures var t := Magnitudes(v, b.al); CodesOf(v, b) == [] + BlockCodes(v, t, b.ss, Eob(t, b))
    ensures After(p0, p0, [])
  {
    hide BlockCodes, Eob;
    var t := Magnitudes(v, b.al);
    assert CodesOf(v, b) == BlockCodes(v, t, b.ss, Eob(t, b));
  }

  lemma NewWithinEob(t: seq<nat>, b: Band, k: nat)
    requires |t| == 64 && IsBand(b) && b.ss <= k <= b.se && t[k] == 1
    ensures k <= Eob(t, b)
  {
  }

  /** The finished segments of the scan. */
  ghost function Finished(segments: seq<seq<Token>>): seq<Token> {
    var n := |segments| - 1;
    if n < 0 then [] else Finished(segments[..n]) + segments[n]
  }

  class Encoder {
    const writer: Writer
    const gather: bool
    const table: CTable
    const counts: array<nat>
    const bit_buffer: array<int>
    const restart_interval: nat
    var eobrun: nat
    var be: nat
    var error: bool
    var restarts_to_go: nat
    var next_restart_num: nat

    /** Tokens of the current segment, and of the finished ones with their data bytes. */
    ghost var tokens: seq<Token>
    ghost var segments: seq<seq<Token>>
    ghost var codes: seq<seq<int>>
    ghost const start: seq<int>
    ghost const base: seq<nat>

    ghost function Pend(): Pending
      requires be <= bit_buffer.Length
      reads `tokens, `eobrun, `be, bit_buffer
    {
      Pending(tokens, eobrun, bit_buffer[..be])
    }

    /** A statistics pass has counted exactly the tokens' symbols. */
    ghost predicate Counted()
      requires counts.Length == |base| == 257
      reads `error, `tokens, `segments, counts
    {
      !error && forall s :: 0 <= s < 256 ==> counts[s] == base[s] + Count(Finished(segments) + tokens, s)
    }

    /** An output pass has written the finished segments, and failed only for a missing code. */
    ghost predicate Output()
      requires IsCTable(table)
      reads `error, `tokens, `segments, `codes, writer
    {
      && writer.Valid() && error == !Coded(table, Finished(segments) + tokens)
      && |codes| == |segments| && writer.prior == start + RestartBytes(codes)
      && forall i :: 0 <= i < |codes| ==> Padded(codes[i], AllBits(table, segments[i]))
    }

    ghost predicate Recorded()
      reads `error, `tokens, `segments, `codes, writer, counts
    {
      && IsCTable(table) && counts.Length == 257 && |base| == 257
      && if gather then Counted() else Output() && writer.Written() == AllBits(table, tokens)
    }

    ghost predicate Valid()
      reads this, writer, counts, bit_buffer
    {
      && bit_buffer.Length == MAX_CORR_BITS && be <= bit_buffer.Length && next_restart_num == |segments| % 8
      && counts as object != bit_buffer as object && Recorded() && Safe(Pend())
    }

    constructor (gathering: bool, ctable: CTable, counters: array<nat>, interval: nat, dest: seq<int>)
      requires IsCTable(ctable) && counters.Length == 257
      ensures Valid() && Pend() == Pending([], 0, []) && !error && gather == gathering && table == ctable
      ensures segments == [] && restart_interval == restarts_to_go == interval && start == dest
      ensures counts == counters && base == counters[..] && fresh(writer) && fresh(bit_buffer)
    {
      var w := new Writer(dest);
      var buf := new int[MAX_CORR_BITS](_ => 0);
      writer, bit_buffer := w, buf;
      gather, table, counts, restart_interval := gathering, ctable, counters, interval;
      eobrun, be, error, restarts_to_go, next_restart_num := 0, 0, false, interval, 0;
      tokens, segments, codes, start, base := [], [], [], dest, counters[..];
    }

    /** emit_ac_symbol. */
    method EmitSymbol(s: nat)
      requires s < 256 && Recorded()
      modifies `error, `tokens, writer, counts
      ensures Recorded() && tokens == old(tokens) + [Sym(s)]
    {
      hide Writer.Written, AllBits, Count, Coded, BitsOf, Finished, Padded, RestartBytes;
      ghost var k, all := Sym(s), Finished(segments) + tokens;
      AllBitsSnoc(table, tokens, k);
      CodedSnoc(table, all, k);
      assert Finished(segments) + (tokens + [k]) == all + [k];
      forall i | 0 <= i < 256 ensures Count(all + [k], i) == Count(all, i) + if i == s then 1 else 0 {
        CountSnoc(all, k, i);
      }
      if gather {
        counts[s] := counts[s] + 1;
      } else {
        var ok := writer.EmitBits(table.co[s], table.si[s]);
        if !ok {
          error := true;
        }
      }
      tokens := tokens + [k];
    }

    /** emit_bits_e with a positive size. */
    method EmitRaw(v: int, n: nat)
      requires 0 < n <= 16 && Recorded()
      modifies `tokens, writer
      ensures Recorded() && tokens == old(tokens) + [Raw(v, n)]
    {
      hide Writer.Written, AllBits, Count, Coded, BitsOf, Finished, Padded, RestartBytes;
      ghost var k, all := Raw(v, n), Finished(segments) + tokens;
      AllBitsSnoc(table, tokens, k);
      CodedSnoc(table, all, k);
      assert Finished(segments) + (tokens + [k]) == all + [k];
      forall i | 0 <= i < 256 ensures Count(all + [k], i) == Count(all, i) {
        CountSnoc(all, k, i);
      }
      if !gather {
        var _ := writer.EmitBits(v, n);
      }
      tokens := tokens + [k];
    }

    /** emit_buffered_bits. */
    method EmitBuffered(start: nat, nbits: nat)
      requires bit_buffer.Length == MAX_CORR_BITS && start + nbits <= bit_buffer.Length && Recorded()
      modifies `tokens, writer
      ensures Recorded() && tokens == old(tokens) + RawBits(bit_buffer[start..start + nbits])
    {
      hide Recorded;
      var i := 0;
      assert RawBits(bit_buffer[start..start]) == [];
      while i < nbits
        invariant 0 <= i <= nbits && Recorded()
        invariant tokens == old(tokens) + RawBits(bit_buffer[start..start + i])
      {
        assert bit_buffer[start..start + i + 1] == bit_buffer[start..start + i] + [bit_buffer[start + i]];
        RawBitsConcat(bit_buffer[start..start + i], [bit_buffer[start + i]]);
        EmitRaw(bit_buffer[start + i], 1);
        i := i + 1;
      }
    }

    /** emit_eobrun: the check for more than 14 bits never fires, because runs are forced out
        in time. */
    method EmitEobrun()
      requires bit_buffer.Length == MAX_CORR_BITS && be <= bit_buffer.Length && eobrun <= 0x7FFF && Recorded()
      requires counts as object != bit_buffer as object
      modifies `error, `tokens, `eobrun, `be, writer, counts
      ensures Recorded() && be <= bit_buffer.Length && Pend() == FlushRun(old(Pend()))
    {
      hide Recorded, Log2, RawBits;
      if eobrun > 0 {
        var nbits := FloorLog2(eobrun);
        Log2Bound(eobrun);
        assert nbits <= 14;
        EmitSymbol(16 * nbits);
        if nbits > 0 {
          EmitRaw(eobrun, nbits);
        }
        assert tokens == old(tokens) + EobTokens(eobrun);
        EmitBuffered(0, be);
        assert bit_buffer[0..be] == bit_buffer[..be];
        eobrun := 0;
        be := 0;
      }
    }

    /** encode_mcu_AC_refine's pre-pass: absolute values after the point transform, and the
        index of the last newly nonzero coefficient. */
    method Prepass(block: seq<int>, order: seq<nat>, b: Band) returns (absvalues: array<nat>, eob: nat)
      requires |block| == 64 && IsOrder(order) && IsBand(b)
      ensures fresh(absvalues) && absvalues.Length == 64
      ensures var t := Magnitudes(Zigzag(block, order), b.al);
        eob == Eob(t, b) && forall k :: b.ss <= k <= b.se ==> absvalues[k] == t[k]
    {
      absvalues := new nat[64];
      eob := 0;
      ghost var t := Magnitudes(Zigzag(block, order), b.al);
      var k := b.ss;
      while k <= b.se
        invariant b.ss <= k <= b.se + 1 && eob == LastNew(t, b.ss, k)
        invariant forall i :: b.ss <= i < k ==> absvalues[i] == t[i]
      {
        var temp := block[order[k]];
        if temp < 0 {
          temp := -temp;
        }
        ShiftNonnegative(temp, Pow2(b.al));
        temp := temp / Pow2(b.al);
        absvalues[k] := temp;
        if temp == 1 {
          eob := k;
        }
        k := k + 1;
      }
    }

    /** Forces out the run and emits one code with the correction bits it owns. */
    method EmitCode(symbol: nat, sign: int, start: nat, br: nat, ghost p0: Pending, ghost done: seq<Token>)
      returns (ghost done': seq<Token>)
      requires Ready() && symbol < 256 && eobrun <= 0x7FFF && start + br <= MAX_CORR_BITS && After(p0, Pend(), done)
      requires eobrun == 0 ==> be == 0
      modifies `error, `tokens, `eobrun, `be, writer, counts
      ensures Ready() && eobrun == 0 && be == 0
      ensures done' == done + ([Sym(symbol)] + (if sign >= 0 then [Raw(sign, 1)] else []) +
                               RawBits(bit_buffer[start..start + br]))
      ensures done' != [] && After(p0, Pend(), done')
    {
      hide Recorded, After, FlushRun, RawBits;
      ghost var head := [Sym(symbol)] + (if sign >= 0 then [Raw(sign, 1)] else []);
      ghost var code := head + RawBits(bit_buffer[start..start + br]);
      done' := done + code;
      ghost var p := Pend();
      AfterMore(p0, p, done, code);
      FlushedAll(p);
      EmitEobrun();
      EmitSymbol(symbol);
      if sign >= 0 {
        EmitRaw(sign, 1);
      }
      assert tokens == FlushRun(p).tokens + head;
      EmitBuffered(start, br);
      assert tokens == FlushRun(p).tokens + code;
      assert bit_buffer[..0] == [];
    }

    ghost predicate Ready()
      reads `error, `tokens, `segments, `codes, `be, writer, counts
    {
      bit_buffer.Length == MAX_CORR_BITS && be <= bit_buffer.Length && counts as object != bit_buffer as object &&
        Recorded()
    }

    /** The scan is at coefficient k: the codes up to c are out, and what was gathered since
        lies at `start` in the bit buffer. */
    ghost predicate AtCoef(v: seq<int>, b: Band, k: nat, c: nat, r: nat, br: nat, start: nat, p0: Pending,
                           done: seq<Token>)
      requires |v| == 64 && IsBand(b)
      reads `error, `tokens, `segments, `codes, `eobrun, `be, writer, counts, bit_buffer
    {
      var t := Magnitudes(v, b.al);
      && Ready() && start == be <= MAX_CORR_BITS - DCTSIZE2 + 1 && br + b.ss <= k <= b.se + 1
      && eobrun <= 0x7FFF && (eobrun == 0 ==> be == 0)
      && After(p0, Pend(), done)
      && Scanning(t, b, k, c, r, bit_buffer[start..start + br])
      && CodesOf(v, b) == done + BlockCodes(v, t, c, Eob(t, b))
    }

    /** Emit any required ZRLs, but not if they can be folded into EOB. */
    method EmitZrls(ghost v: seq<int>, ghost b: Band, k: nat, eob: nat, ghost c: nat, r: nat, br: nat, start: nat,
                    ghost p0: Pending, ghost done: seq<Token>)
      returns (ghost c': nat, r': nat, br': nat, start': nat, ghost done': seq<Token>)
      requires |v| == 64 && IsBand(b) && k <= b.se && AtCoef(v, b, k, c, r, br, start, p0, done)
      requires eob == Eob(Magnitudes(v, b.al), b)
      modifies `error, `tokens, `eobrun, `be, writer, counts
      ensures AtCoef(v, b, k, c', r', br', start', p0, done') && (k <= eob ==> r' <= 15)
    {
      hide Recorded, Scanning, BlockCodes, Eob, Corr, Zeros, CodesOf;
      ghost var t := Magnitudes(v, b.al);
      c', r', br', start', done' := c, r, br, start, done;
      while r' > 15 && k <= eob
        invariant AtCoef(v, b, k, c', r', br', start', p0, done')
        decreases r'
      {
        ghost var bits := bit_buffer[start'..start' + br'];
        ghost var s := ScanZrl(v, t, b, k, c', r', bits);
        Reassociate(done', [Sym(0xF0)] + RawBits(bits), BlockCodes(v, t, s + 1, eob));
        done' := EmitCode(0xF0, -1, start', br', p0, done');
        r' := r' - 16;
        start', br' := 0, 0;
        c' := s + 1;
        assert bit_buffer[0..0] == [];
      }
    }

    /** An already nonzero coefficient only adds a correction bit to the buffer. */
    method BufferBit(ghost v: seq<int>, ghost b: Band, k: nat, temp: nat, ghost c: nat, ghost r: nat, br: nat,
                     start: nat, ghost p0: Pending, ghost done: seq<Token>)
      requires |v| == 64 && IsBand(b) && k <= b.se && AtCoef(v, b, k, c, r, br, start, p0, done)
      requires temp == Magnitudes(v, b.al)[k] > 1 && (k <= Eob(Magnitudes(v, b.al), b) ==> r <= 15)
      modifies bit_buffer
      ensures AtCoef(v, b, k + 1, c, r, br + 1, start, p0, done)
    {
      hide Recorded, Scanning, BlockCodes, Eob, Corr, Zeros, CodesOf;
      ghost var bits, earlier := bit_buffer[start..start + br], bit_buffer[..be];
      ScanOld(Magnitudes(v, b.al), b, k, c, r, bits);
      bit_buffer[start + br] := temp % 2;
      assert bit_buffer[start..start + br + 1] == bits + [temp % 2];
      assert bit_buffer[..be] == earlier;
    }

    /** A newly nonzero coefficient forces out the run and its own code. */
    method EmitNew(ghost v: seq<int>, ghost b: Band, k: nat, negative: bool, ghost c: nat, r: nat, br: nat,
                   start: nat, ghost p0: Pending, ghost done: seq<Token>)
      returns (ghost done': seq<Token>)
      requires |v| == 64 && IsBand(b) && k <= b.se && AtCoef(v, b, k, c, r, br, start, p0, done)
      requires Magnitudes(v, b.al)[k] == 1 && r <= 15 && (negative <==> v[k] < 0)
      modifies `error, `tokens, `eobrun, `be, writer, counts
      ensures AtCoef(v, b, k + 1, k + 1, 0, 0, 0, p0, done')
    {
      hide Recorded, Scanning, BlockCodes, Eob, Corr, Zeros, CodesOf;
      ghost var t, bits := Magnitudes(v, b.al), bit_buffer[start..start + br];
      ScanNew(v, t, b, k, c, r, bits);
      var sign := if negative then 0 else 1;
      Reassociate(done, [Sym(16 * r + 1), Raw(sign, 1)] + RawBits(bits), BlockCodes(v, t, k + 1, Eob(t, b)));
      assert [Sym(16 * r + 1), Raw(sign, 1)] == [Sym(16 * r + 1)] + [Raw(sign, 1)];
      done' := EmitCode(16 * r + 1, sign, start, br, p0, done);
      assert bit_buffer[0..0] == [];
    }

    /** The scan over the band. */
    method ScanBand(block: seq<int>, order: seq<nat>, b: Band, absvalues: array<nat>, eob: nat)
      returns (r: nat, br: nat, start: nat)
      requires Ready() && Safe(Pend()) && |block| == 64 && IsOrder(order) && IsBand(b) && !b.first
      requires absvalues.Length == 64
      requires absvalues as object != bit_buffer as object && absvalues != counts
      requires var t := Magnitudes(Zigzag(block, order), b.al);
        eob == Eob(t, b) && forall k :: b.ss <= k <= b.se ==> absvalues[k] == t[k]
      modifies `error, `tokens, `eobrun, `be, writer, counts, bit_buffer
      ensures Ready() && start == be && be + br <= MAX_CORR_BITS
      ensures var v := Zigzag(block, order);
        && After(old(Pend()), Pend(), CodesOf(v, b))
        && bit_buffer[start..start + br] == TailOf(v, b)
        && (HasTail(v, b) <==> r > 0 || br > 0)
    {
      hide AtCoef, Recorded, Eob, TailOf, HasTail, CodesOf, After, Safe, Zigzag;
      ghost var v := Zigzag(block, order);
      ghost var t, p0 := Magnitudes(v, b.al), Pend();
      ghost var c: nat, done: seq<Token> := b.ss, [];
      r, br, start := 0, 0, be;
      AtStart(v, b);
      var k := b.ss;
      while k <= b.se
        invariant b.ss <= k <= b.se + 1 && AtCoef(v, b, k, c, r, br, start, p0, done)
        invariant forall i :: b.ss <= i <= b.se ==> absvalues[i] == t[i]
        decreases b.se - k
      {
        var temp := absvalues[k];
        if temp == 0 {
          PassZero(v, b, k, c, r, br, start, p0, done);
          r := r + 1;
        } else {
          c, r, br, start, done := EmitZrls(v, b, k, eob, c, r, br, start, p0, done);
          if temp > 1 {
            BufferBit(v, b, k, temp, c, r, br, start, p0, done);
            br := br + 1;
          } else {
            NewWithinEob(t, b, k);
            done := EmitNew(v, b, k, block[order[k]] < 0, c, r, br, start, p0, done);
            start, br, r := 0, 0, 0;
            c := k + 1;
          }
        }
        k := k + 1;
      }
      AtEnd(v, b, c, r, br, start, p0, done);
    }

    lemma AtStart(v: seq<int>, b: Band)
      requires |v| == 64 && IsBand(b) && !b.first && Ready() && Safe(Pend())
      ensures AtCoef(v, b, b.ss, b.ss, 0, 0, be, Pend(), [])
    {
      hide Recorded, BlockCodes, Eob, CodesOf;
      ScanStart(Magnitudes(v, b.al), b);
      StartCodes(v, b, Pend());
      assert bit_buffer[be..be] == [];
    }

    lemma PassZero(v: seq<int>, b: Band, k: nat, c: nat, r: nat, br: nat, start: nat, p0: Pending, done: seq<Token>)
      requires |v| == 64 && IsBand(b) && k <= b.se && AtCoef(v, b, k, c, r, br, start, p0, done)
      requires Magnitudes(v, b.al)[k] == 0
      ensures AtCoef(v, b, k + 1, c, r + 1, br, start, p0, done)
    {
      hide Recorded, Scanning, BlockCodes, Eob, Corr, Zeros, CodesOf, After;
      ScanZero(Magnitudes(v, b.al), b, k, c, r, bit_buffer[start..start + br]);
    }

    lemma AtEnd(v: seq<int>, b: Band, c: nat, r: nat, br: nat, start: nat, p0: Pending, done: seq<Token>)
      requires |v| == 64 && IsBand(b) && !b.first && AtCoef(v, b, b.se + 1, c, r, br, start, p0, done)
      ensures Ready() && start == be && be + br <= MAX_CORR_BITS && After(p0, Pend(), CodesOf(v, b))
      ensures bit_buffer[start..start + br] == TailOf(v, b) && (HasTail(v, b) <==> r > 0 || br > 0)
    {
      hide Recorded, Scanning, BlockCodes, Eob, Corr, Zeros, TailOf, HasTail, CodesOf, After;
      ScanEnd(v, b, c, r, bit_buffer[start..start + br]);
      assert done + [] == done;
    }

    /** encode_mcu_AC_refine (between restarts): codes the block and keeps the scan safe. */
    method EncodeMcuRefine(block: seq<int>, order: seq<nat>, b: Band)
      requires Ready() && Safe(Pend()) && |block| == 64 && IsOrder(order) && IsBand(b) && !b.first
      modifies `error, `tokens, `eobrun, `be, writer, counts, bit_buffer
      ensures Ready() && Safe(Pend()) && Pend() == AddBlock(old(Pend()), Zigzag(block, order), b)
    {
      hide Recorded, CodesOf, TailOf, HasTail, Safe, AddBlock, After, FlushRun, Zigzag;
      ghost var v, p0 := Zigzag(block, order), Pend();
      AddBlockSafe(p0, v, b);
      var absvalues, eob := Prepass(block, order, b);
      var r, br, start := ScanBand(block, order, b, absvalues, eob);
      ghost var p1 := Pend();
      JoinRun(p0, p1, v, b);
      if r > 0 || br > 0 {
        eobrun := eobrun + 1;
        be := be + br;
        assert bit_buffer[..be] == p1.bits + TailOf(v, b);
        if eobrun == 0x7FFF || be > MAX_CORR_BITS - DCTSIZE2 + 1 {
          EmitEobrun();
        }
      }
    }

    /** encode_mcu_AC_first (between restarts). It stops with an error for a value out of range. */
    method EncodeMcuFirst(block: seq<int>, order: seq<nat>, b: Band) returns (ok: bool)
      requires Ready() && Safe(Pend()) && |block| == 64 && IsOrder(order) && IsBand(b) && b.first
      modifies `error, `tokens, `eobrun, `be, writer, counts
      ensures ok <==> Expressible(Zigzag(block, order), b)
      ensures ok ==> Ready() && Safe(Pend()) && Pend() == AddBlock(old(Pend()), Zigzag(block, order), b)
    {
      hide Recorded, CodesOf, TailOf, HasTail, Safe, AddBlock, FlushRun, Zigzag, After, Expressible;
      ghost var v, p0 := Zigzag(block, order), Pend();
      AddBlockSafe(p0, v, b);
      var r;
      ok, r := ScanFirst(block, order, b);
      if !ok {
        return;
      }
      ghost var p1 := Pend();
      JoinRun(p0, p1, v, b);
      if r > 0 {
        eobrun := eobrun + 1;
        assert p1.bits + TailOf(v, b) == p1.bits;
        if eobrun == 0x7FFF {
          EmitEobrun();
        }
      }
    }

    /** A first scan at coefficient k: the codes of all before c are out, and since then there were
        only zeros. */
    ghost predicate AtFirst(v: seq<int>, b: Band, k: nat, c: nat, p0: Pending, done: seq<Token>)
      requires |v| == 64 && IsBand(b)
      reads `error, `tokens, `segments, `codes, `eobrun, `be, writer, counts, bit_buffer
    {
      var u := Sent(v, b.al);
      && b.ss <= c <= k <= b.se + 1 && Ready() && eobrun <= 0x7FFF && (eobrun == 0 ==> be == 0)
      && After(p0, Pend(), done) && CodesOf(v, b) == done + FirstCodes(u, c, b.se)
      && (forall i :: c <= i < k ==> u[i] == 0) && (c > b.ss ==> u[c - 1] != 0)
    }

    /** The scan over the band; r counts trailing zeros. */
    method ScanFirst(block: seq<int>, order: seq<nat>, b: Band) returns (ok: bool, r: nat)
      requires Ready() && Safe(Pend()) && |block| == 64 && IsOrder(order) && IsBand(b) && b.first
      modifies `error, `tokens, `eobrun, `be, writer, counts
      ensures ok <==> Expressible(Zigzag(block, order), b)
      ensures ok ==> FirstDone(Zigzag(block, order), b, old(Pend()), r)
    {
      hide Recorded, CodesOf, Safe, Zigzag, Expressible, AtFirst, FirstDone, Fits, FitBelow, IsOrder, Pend;
      ghost var v, p0 := Zigzag(block, order), Pend();
      ghost var c: nat, done: seq<Token> := b.ss, [];
      StartFirst(v, b);
      FittingBand(v, b);
      ok, r := true, 0;
      var k := b.ss;
      while k <= b.se
        invariant b.ss <= k <= b.se + 1 && AtFirst(v, b, k, c, p0, done) && k == c + r
        invariant FitBelow(v, b, k)
      {
        ZigzagAt(block, order, k);
        ok, r, c, done := StepFirst(block[order[k]], v, b, k, r, p0, c, done);
        if !ok {
          Misfit(v, b, k);
          return;
        }
        FitNext(v, b, k);
        k := k + 1;
      }
      EndFirst(v, b, c, p0, done);
    }

    /** The codes of the band are out, and r trailing zeros are left. */
    ghost predicate FirstDone(v: seq<int>, b: Band, p0: Pending, r: nat)
      requires |v| == 64 && IsBand(b)
      reads `error, `tokens, `segments, `codes, `eobrun, `be, writer, counts, bit_buffer
    {
      Ready() && After(p0, Pend(), CodesOf(v, b)) && TailOf(v, b) == [] && (HasTail(v, b) <==> r > 0)
    }

    /** One coefficient. */
    method StepFirst(coef: int, ghost v: seq<int>, b: Band, k: nat, run: nat, ghost p0: Pending, ghost c: nat,
                     ghost done: seq<Token>)
      returns (ok: bool, r: nat, ghost c': nat, ghost done': seq<Token>)
      requires |v| == 64 && IsBand(b) && b.first && k <= b.se && AtFirst(v, b, k, c, p0, done)
      requires k == c + run && coef == v[k]
      modifies `error, `tokens, `eobrun, `be, writer, counts
      ensures ok <==> Fits(v[k], b.al)
      ensures ok ==> AtFirst(v, b, k + 1, c', p0, done') && k + 1 == c' + r
    {
      hide AtFirst, Shifted, BitLength;
      var temp := ShiftedAbs(coef, b.al);
      if temp == 0 {
        ZeroFirst(v, b, k, c, p0, done);
        ShortLength(0, MAX_COEF_BITS);
        ok, r, c', done' := true, run + 1, c, done;
      } else {
        ok, done' := EmitValue(v, b, k, run, temp, coef < 0, p0, c, done);
        r, c' := 0, k + 1;
      }
    }

    lemma StartFirst(v: seq<int>, b: Band)
      requires |v| == 64 && IsBand(b) && b.first && Ready() && Safe(Pend())
      ensures AtFirst(v, b, b.ss, b.ss, Pend(), [])
    {
      hide Recorded, CodesOf, FirstCodes;
      FirstStart(v, b, Pend());
    }

    lemma ZeroFirst(v: seq<int>, b: Band, k: nat, c: nat, p0: Pending, done: seq<Token>)
      requires |v| == 64 && IsBand(b) && k <= b.se && AtFirst(v, b, k, c, p0, done) && Shifted(v[k], b.al) == 0
      ensures AtFirst(v, b, k + 1, c, p0, done)
    {
      hide Ready, CodesOf, FirstCodes, Shifted, Sent, After, Pend;
      SentIs(v, b.al, k, 0);
    }

    lemma EndFirst(v: seq<int>, b: Band, c: nat, p0: Pending, done: seq<Token>)
      requires |v| == 64 && IsBand(b) && b.first && AtFirst(v, b, b.se + 1, c, p0, done)
      ensures FirstDone(v, b, p0, b.se + 1 - c)
    {
      hide Recorded, CodesOf, FirstCodes, Shifted, Sent, After, HasTail, TailOf;
      FirstEnd(v, b, c);
      assert done + [] == done;
    }

    /** A value forces out the run; then any ZRLs, and its own code. */
    method EmitValue(ghost v: seq<int>, ghost b: Band, k: nat, run: nat, temp: nat, negative: bool, ghost p0: Pending,
                     ghost c: nat, ghost done: seq<Token>)
      returns (ok: bool, ghost done': seq<Token>)
      requires |v| == 64 && IsBand(b) && b.first && k <= b.se && AtFirst(v, b, k, c, p0, done) && run == k - c
      requires temp == Shifted(v[k], b.al) > 0 && (negative <==> v[k] < 0)
      modifies `error, `tokens, `eobrun, `be, writer, counts
      ensures ok <==> BitLength(temp) <= MAX_COEF_BITS
      ensures ok ==> AtFirst(v, b, k + 1, k + 1, p0, done')
    {
      hide Recorded, After, FlushRun, FirstCodes, Shifted, CodesOf, Sent, ValueTokens, BitLength, AtFirst;
      ghost var u := Sent(v, b.al);
      BeforeValue(v, b, k, c, temp, p0, done);
      ghost var code;
      done' := done;
      ok, code := EmitAfterRun(u, b.se, c, k, run, temp, negative, p0, done);
      if !ok {
        return;
      }
      done' := done + code;
      AfterValue(v, b, k, c, p0, done, code);
    }

    lemma BeforeValue(v: seq<int>, b: Band, k: nat, c: nat, temp: nat, p0: Pending, done: seq<Token>)
      requires |v| == 64 && IsBand(b) && k <= b.se && AtFirst(v, b, k, c, p0, done) && temp == Shifted(v[k], b.al) > 0
      ensures b.ss <= c <= k && Ready() && eobrun <= 0x7FFF && (eobrun == 0 ==> be == 0) && After(p0, Pend(), done)
      ensures var u := Sent(v, b.al);
        && u[k] == (if v[k] < 0 then 0 - temp else temp) && (forall i :: c <= i < k ==> u[i] == 0)
        && CodesOf(v, b) == done + FirstCodes(u, c, b.se)
    {
      hide Ready, CodesOf, FirstCodes, Shifted, Sent, After, Pend;
      SentIs(v, b.al, k, temp);
    }

    lemma AfterValue(v: seq<int>, b: Band, k: nat, c: nat, p0: Pending, done: seq<Token>, code: seq<Token>)
      requires |v| == 64 && IsBand(b) && b.ss <= k <= b.se && Ready() && eobrun == 0 && be == 0
      requires After(p0, Pend(), done + code) && Sent(v, b.al)[k] != 0
      requires CodesOf(v, b) == done + FirstCodes(Sent(v, b.al), c, b.se)
      requires FirstCodes(Sent(v, b.al), c, b.se) == code + FirstCodes(Sent(v, b.al), k + 1, b.se)
      ensures AtFirst(v, b, k + 1, k + 1, p0, done + code)
    {
      hide Ready, CodesOf, FirstCodes, Sent, After, Pend;
      Reassociate(done, code, FirstCodes(Sent(v, b.al), k + 1, b.se));
    }

    /** The symbol for a zero run of at most 15 and the magnitude that ends it. */
    method EmitAfterRun(ghost u: seq<int>, ghost se: nat, ghost c: nat, k: nat, run: nat, temp: nat, negative: bool,
                        ghost p0: Pending, ghost done: seq<Token>)
      returns (ok: bool, ghost code: seq<Token>)
      requires c <= k <= se < |u| && run == k - c && (forall i :: c <= i < k ==> u[i] == 0)
      requires u[k] == (if negative then 0 - temp else temp) && temp > 0
      requires Ready() && eobrun <= 0x7FFF && (eobrun == 0 ==> be == 0) && After(p0, Pend(), done)
      modifies `error, `tokens, `eobrun, `be, writer, counts
      ensures ok <==> BitLength(temp) <= MAX_COEF_BITS
      ensures ok ==> Ready() && eobrun == 0 && be == 0 && After(p0, Pend(), done + code)
      ensures ok ==> FirstCodes(u, c, se) == code + FirstCodes(u, k + 1, se)
    {
      hide Recorded, After, FlushRun, FirstCodes, BitLength;
      ghost var p := Pend();
      FlushedAll(p);
      EmitEobrun();
      ok, code := EmitCoded(u, se, c, k, run, temp, negative);
      if !ok {
        return;
      }
      AfterMore(p0, p, done, code);
      assert bit_buffer[..0] == [];
    }

    /** The codes of one value after a run of zeros. */
    method EmitCoded(ghost u: seq<int>, ghost se: nat, ghost c: nat, k: nat, run: nat, temp: nat, negative: bool)
      returns (ok: bool, ghost code: seq<Token>)
      requires Recorded() && c <= k <= se < |u| && run == k - c && (forall i :: c <= i < k ==> u[i] == 0)
      requires u[k] == (if negative then 0 - temp else temp) && temp > 0
      modifies `error, `tokens, writer, counts
      ensures ok <==> BitLength(temp) <= MAX_COEF_BITS
      ensures ok ==> Recorded() && tokens == old(tokens) + code && code != []
      ensures ok ==> FirstCodes(u, c, se) == code + FirstCodes(u, k + 1, se)
    {
      hide Recorded, FirstCodes, Log2;
      code := [];
      var r := run;
      while r > 15
        invariant 0 <= r <= k - c && Recorded() && tokens == old(tokens) + code
        invariant FirstCodes(u, c, se) == code + FirstCodes(u, k - r, se)
      {
        FirstZrl(u, k - r, k, se);
        Reassociate(code, [Sym(0xF0)], FirstCodes(u, k - r + 16, se));
        EmitSymbol(0xF0);
        code := code + [Sym(0xF0)];
        r := r - 16;
      }
      var nbits := FloorLog2(temp);
      nbits := nbits + 1;
      assert nbits == BitLength(temp) == BitLength(Abs(u[k]));
      ok := true;
      if nbits > MAX_COEF_BITS {
        return false, code;
      }
      FirstValue(u, k - r, k, se);
      Reassociate(code, ValueTokens(r, u[k]), FirstCodes(u, k + 1, se));
      EmitSymbol(16 * r + nbits);
      var temp2: int := temp;
      if negative {
        temp2 := -temp2 - 1;
      }
      EmitRaw(temp2, nbits);
      code := code + ValueTokens(r, u[k]);
    }

    /** The segment's data is complete. */
    method FlushSegment()
      requires Recorded() && !gather
      modifies writer
      ensures Output() && writer.put_bits == 0 && Padded(writer.data, AllBits(table, tokens))
    {
      hide AllBits, Coded, Finished, RestartBytes, Padded, ByteBits;
      ghost var n: nat := (8 - writer.put_bits) % 8;
      writer.Flush();
      assert writer.held == [] && ByteBits(writer.data) + [] == ByteBits(writer.data);
      PaddedBy(writer.data, AllBits(table, tokens), n);
    }

    /** emit_restart: the pending run goes out, and the segment ends. */
    method EmitRestart(restart_num: nat)
      requires Ready() && Safe(Pend()) && restart_num == |segments| % 8
      modifies `error, `tokens, `segments, `codes, `eobrun, `be, writer, counts
      ensures Ready() && Pend() == Pending([], 0, []) && segments == old(segments) + [FlushRun(old(Pend())).tokens]
    {
      hide Recorded, FlushRun, Safe;
      ghost var p := Pend();
      SafeRun(p);
      EmitEobrun();
      FlushedAll(p);
      EndSegment(restart_num);
      eobrun := 0;
      be := 0;
    }

    method EndSegment(restart_num: nat)
      requires Recorded() && restart_num == |segments| % 8
      modifies `tokens, `segments, `codes, writer
      ensures Recorded() && tokens == [] && segments == old(segments) + [old(tokens)]
    {
      hide AllBits, Coded, Count, Finished, RestartBytes, Padded, Ended, Writer.Valid, ByteBits;
      FinishedSnoc(segments, tokens);
      NoTokens(table);
      if !gather {
        FlushSegment();
        ghost var data, all := writer.data, codes;
        writer.EmitMarker(RST0 + restart_num);
        RestartSnoc(all, data);
        assert start + RestartBytes(all) + Stuff(data) + [0xFF, RST0 + restart_num] ==
          start + RestartBytes(all + [data]) by {
          EndedIs(start, RestartBytes(all), data, |all|);
        }
        codes := codes + [data];
      }
      segments := segments + [tokens];
      tokens := [];
    }

    /** The block of one MCU, by the routine for the kind of scan. */
    method EncodeBlock(block: seq<int>, order: seq<nat>, b: Band) returns (ok: bool)
      requires Ready() && Safe(Pend()) && |block| == 64 && IsOrder(order) && IsBand(b)
      modifies `error, `tokens, `eobrun, `be, writer, counts, bit_buffer
      ensures ok <==> Expressible(Zigzag(block, order), b)
      ensures ok ==> Ready() && Safe(Pend()) && Pend() == AddBlock(old(Pend()), Zigzag(block, order), b)
    {
      hide Recorded, AddBlock, Safe, Zigzag, IsOrder, Fits;
      if b.first {
        ok := EncodeMcuFirst(block, order, b);
      } else {
        ok := true;
        EncodeMcuRefine(block, order, b);
      }
    }

    /** encode_mcu_AC_first or encode_mcu_AC_refine, with restarts. */
    method Encode(block: seq<int>, order: seq<nat>, b: Band) returns (ok: bool)
      requires Valid() && |block| == 64 && IsOrder(order) && IsBand(b)
      modifies this, writer, counts, bit_buffer
      ensures ok <==> Expressible(Zigzag(block, order), b)
      ensures ok ==> Valid() && be <= bit_buffer.Length
      ensures ok ==> var restart, v := restart_interval > 0 && old(restarts_to_go) == 0, Zigzag(block, order);
        && Pend() == AddBlock(if restart then Pending([], 0, []) else old(Pend()), v, b)
        && segments == old(segments) + (if restart then [FlushRun(old(Pend())).tokens] else [])
        && restarts_to_go == if restart_interval == 0 then old(restarts_to_go)
                             else if restart then restart_interval - 1 else old(restarts_to_go) - 1
    {
      hide Recorded, AddBlock, FlushRun, Safe, Zigzag, IsOrder, Expressible;
      SafeRun(Pend());
      if restart_interval > 0 {
        if restarts_to_go == 0 {
          EmitRestart(next_restart_num);
        }
      }
      ok := EncodeBlock(block, order, b);
      if !ok {
        return;
      }
      if restart_interval > 0 {
        if restarts_to_go == 0 {
          restarts_to_go := restart_interval;
          next_restart_num := next_restart_num + 1;
          next_restart_num := next_restart_num % 8;
        }
        restarts_to_go := restarts_to_go - 1;
      }
    }

    /** finish_pass. */
    method Finish()
      requires Valid()
      modifies `error, `tokens, `eobrun, `be, writer, counts
      ensures tokens == FlushRun(old(Pend())).tokens && counts.Length == |base| == 257 && IsCTable(table)
      ensures if gather then Counted()
              else && Output() && Padded(writer.data, AllBits(table, tokens))
                   && writer.out == ScanBytes(start, codes, writer.data)
    {
      hide Counted, AllBits, Coded, Finished, RestartBytes, Padded, FlushRun, Stuff;
      ghost var p := Pend();
      SafeRun(p);
      EmitEobrun();
      FlushedAll(p);
      if !gather {
        FlushSegment();
      }
    }
  }

  lemma SentIs(v: seq<int>, al: nat, k: nat, temp: nat)
    requires k < |v| && temp == Shifted(v[k], al)
    ensures Sent(v, al)[k] == if v[k] < 0 then 0 - temp else temp
  {
  }

  /** The point transform: an arithmetic shift of the absolute value. */
  method ShiftedAbs(x: int, al: nat) returns (temp: nat)
    ensures temp == Shifted(x, al)
  {
    var a: int := x;
    if a < 0 {
      a := -a;
    }
    ShiftNonnegative(a, Pow2(al));
    temp := a / Pow2(al);
  }

  lemma FirstStart(v: seq<int>, b: Band, p0: Pending)
    requires |v| == 64 && IsBand(b) && b.first
    ensures CodesOf(v, b) == [] + FirstCodes(Sent(v, b.al), b.ss, b.se) && After(p0, p0, [])
  {
  }

  /** A run of more than 15 zeros starts with a ZRL. */
  lemma FirstZrl(u: seq<int>, c: nat, k: nat, se: nat)
    requires c + 15 < k <= se < |u| && u[k] != 0 && forall i :: c <= i < k ==> u[i] == 0
    ensures FirstCodes(u, c, se) == [Sym(0xF0)] + FirstCodes(u, c + 16, se)
  {
    NextIs(u, c, k, se);
  }

  lemma FirstValue(u: seq<int>, c: nat, k: nat, se: nat)
    requires c <= k <= c + 15 && k <= se < |u| && u[k] != 0 && forall i :: c <= i < k ==> u[i] == 0
    ensures FirstCodes(u, c, se) == ValueTokens(k - c, u[k]) + FirstCodes(u, k + 1, se)
  {
    NextIs(u, c, k, se);
  }

  /** Trailing zeros are all that is left of a band. */
  lemma FirstEnd(v: seq<int>, b: Band, c: nat)
    requires |v| == 64 && IsBand(b) && b.first && b.ss <= c <= b.se + 1
    requires var u := Sent(v, b.al); (forall i :: c <= i <= b.se ==> u[i] == 0) && (c > b.ss ==> u[c - 1] != 0)
    ensures FirstCodes(Sent(v, b.al), c, b.se) == [] && TailOf(v, b) == [] && (HasTail(v, b) <==> c <= b.se)
  {
    SentIs(v, b.al, b.se, Shifted(v[b.se], b.al));
    hide Shifted, Sent;
    NextIs(Sent(v, b.al), c, b.se + 1, b.se);
  }

  lemma SafeRun(p: Pending)
    ensures Safe(p) ==> p.run < 0x7FFF && |p.bits| <= MAX_CORR_BITS - DCTSIZE2 + 1 && (p.run == 0 ==> p.bits == [])
    ensures Safe(Pending([], 0, []))
  {
  }

  lemma FlushedAll(p: Pending)
    requires p.run == 0 ==> p.bits == []
    ensures FlushRun(p) == Pending(FlushRun(p).tokens, 0, [])
  {
  }

  lemma PaddedBy(code: seq<int>, bits: seq<int>, n: nat)
    requires IsBytes(code) && n < 8 && ByteBits(code) == bits + Fill(1, n)
    ensures Padded(code, bits)
  {
  }

  lemma EndedIs(start: seq<int>, done: seq<int>, data: seq<int>, k: nat)
    ensures start + done + Stuff(data) + [0xFF, RST0 + k % 8] == start + (done + Ended(data, k))
  {
    hide Stuff;
  }

  lemma FinishedSnoc(segments: seq<seq<Token>>, tokens: seq<Token>)
    ensures Finished(segments + [tokens]) == Finished(segments) + tokens
    ensures Finished(segments + [tokens]) + [] == Finished(segments) + tokens
  {
    assert (segments + [tokens])[..|segments|] == segments;
  }

  lemma NoTokens(c: CTable)
    requires IsCTable(c)
    ensures AllBits(c, []) == []
  {
  }

  /** After the codes, the tail joins the run. */
  lemma JoinRun(p0: Pending, p1: Pending, v: seq<int>, b: Band)
    requires |v| == 64 && IsBand(b) && Safe(p0) && After(p0, p1, CodesOf(v, b))
    ensures p1.run < 0x7FFF && |p1.bits| <= MAX_CORR_BITS - DCTSIZE2 + 1
    ensures !HasTail(v, b) ==> AddBlock(p0, v, b) == p1
    ensures HasTail(v, b) ==>
      var p2 := p1.(run := p1.run + 1, bits := p1.bits + TailOf(v, b));
      AddBlock(p0, v, b) == if p2.run == 0x7FFF || |p2.bits| > MAX_CORR_BITS - DCTSIZE2 + 1 then FlushRun(p2) else p2
  {
    hide CodesOf, HasTail, TailOf;
  }

  /** The bit-counting loop. */
  method FloorLog2(n: nat) returns (nbits: nat)
    requires n > 0
    ensures nbits == Log2(n)
  {
    hide Log2;
    var temp := n;
    nbits := 0;
    while temp > 1
      invariant temp > 0 && Log2(n) == nbits + Log2(temp)
      decreases temp
    {
      Log2Step(temp);
      temp := temp / 2;
      nbits := nbits + 1;
    }
    Log2One();
  }

  lemma Log2Step(n: nat)
    requires n > 1
    ensures Log2(n) == Log2(n / 2) + 1
  {
  }

  lemma Log2One()
    ensures Log2(1) == 0
  {
  }

  lemma CodedSnoc(c: CTable, ks: seq<Token>, k: Token)
    requires IsCTable(c)
    ensures Coded(c, ks + [k]) <==> Coded(c, ks) && (k.Sym? ==> k.s < 256 && c.si[k.s] > 0)
  {
    var all := ks + [k];
    if Coded(c, all) {
      assert all[|ks|] == k;
      forall i | 0 <= i < |ks| && ks[i].Sym? ensures ks[i].s < 256 && c.si[ks[i].s] > 0 {
        assert all[i] == ks[i];
      }
    }
  }
}
