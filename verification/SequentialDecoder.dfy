/** The sequential Huffman decoder for full-size blocks. */
module SequentialDecoder {
  import opened Bits
  import opened BitReader
  import opened Tokens
  import opened Values
  import opened BandEncoder
  import opened BandDecoder
  import opened SequentialPlan
  import opened SequentialEncoder
  import opened ScanReader
  import HuffmanCodes

  const LAST := 63

  /** AC coefficients that are either decoded already (by an attempt that was suspended) or
      still zero. */
  ghost predicate Partial(z: seq<int>, v: seq<int>) {
    |z| == |v| == 64 && forall j :: 1 <= j < 64 ==> z[j] == 0 || z[j] == v[j]
  }

  /** The AC coefficients below k are decoded. */
  ghost predicate DecodedTo(z: seq<int>, v: seq<int>, k: nat) {
    Partial(z, v) && forall j :: 1 <= j < k && j < 64 ==> z[j] == v[j]
  }

  /** The symbol at the head of the AC tokens from k on, and what follows it. */
  ghost function AcHead(v: seq<int>, k: nat): (h: nat)
    requires |v| == 64 && 1 <= k <= LAST
  {
    var n := Next(v, k, LAST);
    if n > LAST then 0 else if n - k > 15 then 0xF0 else 16 * (n - k) + BitLength(Abs(v[n]))
  }

  ghost function AcAfter(c: CTable, v: seq<int>, k: nat, rest: seq<int>): seq<int>
    requires |v| == 64 && 1 <= k <= LAST && IsCTable(c)
  {
    var n := Next(v, k, LAST);
    if n > LAST then rest
    else if n - k > 15 then AllBits(c, AcTokens(v, k + 16, LAST)) + rest
    else BitsOf(Complemented(v[n]), BitLength(Abs(v[n]))) + (AllBits(c, AcTokens(v, n + 1, LAST)) + rest)
  }

  ghost predicate AcInRange(v: seq<int>) {
    |v| == 64 && forall k :: 1 <= k <= LAST ==> BitLength(Abs(v[k])) <= MAX_COEF_BITS
  }

  lemma NonzeroLength(x: int)
    requires x != 0
    ensures BitLength(Abs(x)) > 0
  {
  }

  lemma AcStep(c: CTable, v: seq<int>, k: nat, rest: seq<int>)
    requires |v| == 64 && 1 <= k <= LAST && IsCTable(c) && Coded(c, AcTokens(v, k, LAST)) && AcInRange(v)
    ensures var h, n := AcHead(v, k), Next(v, k, LAST);
      && h < 256 && c.si[h] > 0
      && AllBits(c, AcTokens(v, k, LAST)) + rest == TokenBits(c, Sym(h)) + AcAfter(c, v, k, rest)
      && (h % 16 != 0 ==>
            k <= n <= LAST && n == k + h / 16 && h % 16 == BitLength(Abs(v[n])) && v[n] != 0 &&
            Coded(c, AcTokens(v, n + 1, LAST)) &&
            AcAfter(c, v, k, rest) ==
              BitsOf(Complemented(v[n]), h % 16) + (AllBits(c, AcTokens(v, n + 1, LAST)) + rest))
      && (h % 16 == 0 && h / 16 != 15 ==> n > LAST && AcAfter(c, v, k, rest) == rest)
      && (h % 16 == 0 && h / 16 == 15 ==>
            k + 16 <= n <= LAST && Coded(c, AcTokens(v, k + 16, LAST)) &&
            AcAfter(c, v, k, rest) == AllBits(c, AcTokens(v, k + 16, LAST)) + rest)
  {
    hide BitLength, TokenBits, BitsOf, IsCTable, AllBits, Coded;
    var n, ks := Next(v, k, LAST), AcTokens(v, k, LAST);
    if n > LAST {
      assert ks == [Sym(0)] + [];
      HeadBits(c, Sym(0), [], rest);
      NoTokensBits(c);
      assert [] + rest == rest;
      CodedHeadSym(c, ks);
    } else if n - k > 15 {
      HeadBits(c, Sym(0xF0), AcTokens(v, k + 16, LAST), rest);
      CodedHeadSym(c, ks);
      CodedPrefix(c, [Sym(0xF0)], AcTokens(v, k + 16, LAST));
    } else {
      NonzeroLength(v[n]);
      var head, raw := Sym(16 * (n - k) + BitLength(Abs(v[n]))), Raw(Complemented(v[n]), BitLength(Abs(v[n])));
      assert ValueTokens(n - k, v[n]) == [head] + [raw];
      var more := AcTokens(v, n + 1, LAST);
      assert ks == [head] + ([raw] + more);
      HeadBits(c, head, [raw] + more, rest);
      HeadBits(c, raw, more, rest);
      RawIs(c, raw);
      CodedHeadSym(c, ks);
      CodedPrefix(c, ValueTokens(n - k, v[n]), more);
    }
  }

  lemma RawIs(c: CTable, k: Token)
    requires IsCTable(c) && k.Raw?
    ensures TokenBits(c, k) == BitsOf(k.v, k.n)
  {
  }

  lemma CodedHeadSym(c: CTable, ks: seq<Token>)
    requires IsCTable(c) && Coded(c, ks)
    ensures |ks| > 0 && ks[0].Sym? ==> ks[0].s < 256 && c.si[ks[0].s] > 0
  {
  }

  /** The loop over AC coefficients up to `limit`, storing them or not. It ends at the limit (a
      run may carry it past), or at the end-of-block code. */
  method AcLoop(reader: Reader, d: DTable, start: nat, limit: nat, store: bool, block: array<int>, order: seq<nat>,
                ghost t: HuffmanCodes.Table, ghost c: CTable, ghost v: seq<int>, ghost rest: seq<int>)
    returns (ok: bool, k: nat, eob: bool)
    requires Live(reader) && Matched(t, c, d) && IsCTable(c) && block.Length == 64 && IsZigzag(order)
    requires 1 <= start <= 64 && limit <= 64 && AcInRange(v) && Coded(c, AcTokens(v, start, LAST))
    requires reader.Ahead() == AllBits(c, AcTokens(v, start, LAST)) + rest
    requires if store then DecodedTo(Zigzag(block[..], order), v, start) else |v| == 64
    modifies block
    modifies reader`pos, reader`marker, reader`get_buffer, reader`bits_left, reader`insufficient, reader`m, reader`held
    ensures Live(reader) && (old(reader.marker) != 0 ==> reader.marker != 0)
    ensures if store then DecodedTo(Zigzag(block[..], order), v, if ok then k else 1) else block[..] == old(block[..])
    ensures block[0] == old(block[0])
    ensures if !ok then reader.avail < |reader.src| && reader.marker == 0
            else if eob then k == 64 && reader.Ahead() == rest
            else start <= k <= 64 && limit <= k && Coded(c, AcTokens(v, k, LAST))
                 && reader.Ahead() == AllBits(c, AcTokens(v, k, LAST)) + rest
  {
    hide Live, Matched, IsCTable, Reader.Ahead, AcTokens, AllBits, Coded, BitsOf, Zigzag, TokenBits, BitLength;
    hide AcHead, AcAfter, IsOrder;
    k, eob, ok := start, false, true;
    while k < limit
      invariant Live(reader) && (old(reader.marker) != 0 ==> reader.marker != 0)
      invariant start <= k <= 64 && Coded(c, AcTokens(v, k, LAST)) && block[0] == old(block[0])
      invariant reader.Ahead() == AllBits(c, AcTokens(v, k, LAST)) + rest
      invariant if store then DecodedTo(Zigzag(block[..], order), v, k) else block[..] == old(block[..])
      decreases 64 - k
    {
      AcStep(c, v, k, rest);
      var sym, value;
      ghost var n := Next(v, k, LAST);
      ok, sym := ReadSymbol(reader, d, t, c, AcHead(v, k), AcAfter(c, v, k, rest));
      if !ok {
        return;
      }
      var r, s := sym / 16, sym % 16;
      if s != 0 {
        k := k + r;
        ok, value := ReadBits(reader, s, Complemented(v[n]), AllBits(c, AcTokens(v, n + 1, LAST)) + rest);
        if !ok {
          return;
        }
        ExtendInverts(v[n]);
        if store {
          StoreAc(block, order, v, k - r, k, Extend(value, s));
        }
      } else {
        if r != 15 {
          if store {
            SkipZeros(Zigzag(block[..], order), v, k, 64);
          }
          return true, 64, true;
        }
        if store {
          SkipZeros(Zigzag(block[..], order), v, k, k + 16);
        }
        k := k + 15;
      }
      k := k + 1;
    }
  }

  lemma SkipZeros(z: seq<int>, v: seq<int>, k: nat, to: nat)
    requires DecodedTo(z, v, k) && 1 <= k && to <= 64 && |v| == 64 && forall i :: k <= i < to ==> v[i] == 0
    ensures DecodedTo(z, v, to)
  {
  }

  method StoreAc(block: array<int>, order: seq<nat>, ghost v: seq<int>, ghost from: nat, k: nat, value: int)
    requires block.Length == 64 && IsZigzag(order) && 1 <= from <= k <= LAST
    requires DecodedTo(Zigzag(block[..], order), v, from)
    requires value == v[k] && forall i :: from <= i < k ==> v[i] == 0
    modifies block
    ensures DecodedTo(Zigzag(block[..], order), v, k + 1) && block[0] == old(block[0])
  {
    hide Zigzag;
    ghost var z := Zigzag(block[..], order);
    SkipZeros(z, v, from, k);
    ZigzagUpdate(block[..], order, k, value);
    ghost var was := block[..];
    block[order[k]] := value;
    assert block[..] == was[order[k] := value];
    assert order[k] != order[0];
  }

  /** The DC difference: its size symbol, then its bits. */
  method ReadDifference(reader: Reader, d: DTable, wanted: bool, ghost t: HuffmanCodes.Table, ghost c: CTable,
                        ghost x: int, ghost rest: seq<int>)
    returns (ok: bool, value: int)
    requires Live(reader) && Matched(t, c, d) && IsCTable(c) && BitLength(Abs(x)) <= MAX_COEF_BITS + 1
    requires Coded(c, ValueTokens(0, x)) && reader.Ahead() == AllBits(c, ValueTokens(0, x)) + rest
    modifies reader`pos, reader`marker, reader`get_buffer, reader`bits_left, reader`insufficient, reader`m, reader`held
    ensures Live(reader) && (old(reader.marker) != 0 ==> reader.marker != 0)
    ensures if ok then (wanted ==> value == x) && reader.Ahead() == rest
            else reader.avail < |reader.src| && reader.marker == 0
  {
    hide Live, Matched, IsCTable, Reader.Ahead, AllBits, BitsOf, TokenBits, BitLength;
    DifferenceBits(c, x, rest);
    var s, r;
    ok, s := ReadSymbol(reader, d, t, c, BitLength(Abs(x)), BitsOf(Complemented(x), BitLength(Abs(x))) + rest);
    value := 0;
    if !ok {
      return;
    }
    if s != 0 {
      ok, r := ReadBits(reader, s, Complemented(x), rest);
      if !ok {
        return;
      }
      ExtendInverts(x);
      if wanted {
        value := Extend(r, s);
      }
    }
  }

  lemma DifferenceBits(c: CTable, x: int, rest: seq<int>)
    requires IsCTable(c) && Coded(c, ValueTokens(0, x)) && BitLength(Abs(x)) <= MAX_COEF_BITS + 1
    ensures var n := BitLength(Abs(x));
      && n < 256 && c.si[n] > 0 && (n == 0 <==> x == 0) && (n == 0 ==> BitsOf(Complemented(x), n) + rest == rest)
      && AllBits(c, ValueTokens(0, x)) + rest == TokenBits(c, Sym(n)) + (BitsOf(Complemented(x), n) + rest)
  {
    hide BitsOf, TokenBits, AllBits;
    var n := BitLength(Abs(x));
    assert ValueTokens(0, x)[0] == Sym(n);
    var raw := if n > 0 then [Raw(Complemented(x), n)] else [];
    HeadBits(c, Sym(n), raw, rest);
    NoTokensBits(c);
    if n > 0 {
      HeadBits(c, raw[0], [], rest);
      assert raw == [raw[0]] + [];
      RawIs(c, raw[0]);
      assert [] + rest == rest;
    } else {
      NoneBits(Complemented(x));
    }
  }

  lemma NoneBits(v: int)
    ensures BitsOf(v, 0) == []
  {
  }

  /** What is left of an MCU's block after decoding with coef_limit `limit`: exact below the
      limit; beyond it a coefficient may or may not have been stored; untouched if the
      component is not needed. */
  ghost predicate BlockDone(z: seq<int>, z0: seq<int>, v: seq<int>, limit: nat) {
    && |z| == |z0| == |v| == 64
    && if limit == 0 then z == z0 else DecodedTo(z, v, limit) && z[0] == v[0]
  }

  /** A single block: the difference, then the AC coefficients, stored up to the limit and
      skipped beyond it. */
  method DecodeBlock(reader: Reader, dd: DTable, ad: DTable, limit: nat, last: int, block: array<int>,
                     order: seq<nat>, ghost dt: HuffmanCodes.Table, ghost dc: CTable, ghost at: HuffmanCodes.Table,
                     ghost ac: CTable, ghost v: seq<int>, ghost pred: int, ghost rest: seq<int>)
    returns (ok: bool, newLast: int)
    requires Live(reader) && Matched(dt, dc, dd) && Matched(at, ac, ad) && IsCTable(dc) && IsCTable(ac)
    requires block.Length == 64 && IsZigzag(order) && limit <= 64 && Partial(Zigzag(block[..], order), v)
    requires InRange(v, pred, LAST) && (limit > 0 ==> last == pred)
    requires Coded(dc, ValueTokens(0, v[0] - pred)) && Coded(ac, AcTokens(v, 1, LAST))
    requires reader.Ahead() == AllBits(dc, ValueTokens(0, v[0] - pred)) + (AllBits(ac, AcTokens(v, 1, LAST)) + rest)
    modifies block
    modifies reader`pos, reader`marker, reader`get_buffer, reader`bits_left, reader`insufficient, reader`m, reader`held
    ensures Live(reader) && (old(reader.marker) != 0 ==> reader.marker != 0)
    ensures Partial(Zigzag(block[..], order), v) && (limit == 0 ==> block[..] == old(block[..]))
    ensures if ok then && reader.Ahead() == rest && newLast == (if limit > 0 then v[0] else last)
                       && BlockDone(Zigzag(block[..], order), old(Zigzag(block[..], order)), v, limit)
            else reader.avail < |reader.src| && reader.marker == 0
  {
    hide Live, Matched, IsCTable, Reader.Ahead, AcTokens, AllBits, Coded, ValueTokens, IsOrder, Zigzag, BitLength;
    newLast := last;
    var diff, k, eob := 0, 1, false;
    ok, diff := ReadDifference(reader, dd, limit > 0, dt, dc, v[0] - pred, AllBits(ac, AcTokens(v, 1, LAST)) + rest);
    if !ok {
      return;
    }
    if limit > 0 {
      newLast := diff + last;
      StoreDc(block, order, v, newLast);
      ok, k, eob := AcLoop(reader, ad, 1, limit, true, block, order, at, ac, v, rest);
      if !ok {
        return;
      }
    }
    if !eob {
      ok, k, eob := AcLoop(reader, ad, k, 64, false, block, order, at, ac, v, rest);
      if !ok {
        return;
      }
      NoMoreAc(ac, v, k, rest);
    }
    DcIs(block[..], order);
  }

  lemma DcIs(block: seq<int>, order: seq<nat>)
    requires |block| == 64 && IsZigzag(order)
    ensures Zigzag(block, order)[0] == block[0]
  {
  }

  lemma NoMoreAc(c: CTable, v: seq<int>, k: nat, rest: seq<int>)
    requires IsCTable(c) && |v| == 64
    ensures k >= 64 ==> AllBits(c, AcTokens(v, k, LAST)) + rest == rest
  {
    assert AllBits(c, []) == [];
  }

  method StoreDc(block: array<int>, order: seq<nat>, ghost v: seq<int>, value: int)
    requires block.Length == 64 && IsZigzag(order) && Partial(Zigzag(block[..], order), v)
    modifies block
    ensures DecodedTo(Zigzag(block[..], order), v, 1) && block[0] == value
  {
    ghost var was := block[..];
    ZigzagUpdate(was, order, 0, value);
    block[0] := value;
    assert block[..] == was[order[0] := value];
  }
}
