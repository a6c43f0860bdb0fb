/** The sequential Huffman encoder: the statistics pass and the output pass, which must agree. */
module SequentialEncoder {
  import opened Bits
  import opened BitWriter
  import opened Tokens
  import opened Values
  import opened BandEncoder
  import opened SequentialPlan

  /** natural_order, with the DC coefficient first. */
  ghost predicate IsZigzag(order: seq<nat>) {
    IsOrder(order) && order[0] == 0
  }

  /** Number of bits of a magnitude, by shifting. */
  method CountBits(x: nat) returns (nbits: nat)
    ensures nbits == BitLength(x)
  {
    var temp := x;
    nbits := 0;
    while temp > 0
      invariant BitLength(x) == nbits + BitLength(temp)
      decreases temp
    {
      LengthStep(temp);
      temp := temp / 2;
      nbits := nbits + 1;
    }
  }

  lemma LengthStep(x: nat)
    requires x > 0
    ensures BitLength(x) == BitLength(x / 2) + 1
  {
  }

  /** The scan at coefficient k: a run of zeros started at c, and the tokens before c are out. */
  ghost predicate Running(v: seq<int>, k: nat, c: nat, se: nat, done: seq<Token>) {
    && |v| == 64 && 1 <= c <= k <= se + 1 <= 64 && (forall i :: c <= i < k ==> v[i] == 0)
    && AcTokens(v, 1, se) == done + AcTokens(v, c, se)
    && forall i :: 1 <= i < k ==> BitLength(Abs(v[i])) <= MAX_COEF_BITS
  }

  lemma RunStart(v: seq<int>, se: nat)
    requires |v| == 64 && se < 64
    ensures Running(v, 1, 1, se, [])
  {
  }

  lemma RunZero(v: seq<int>, k: nat, c: nat, se: nat, done: seq<Token>)
    requires Running(v, k, c, se, done) && k <= se && v[k] == 0
    ensures Running(v, k + 1, c, se, done)
  {
    hide AcTokens;
    ShortLength(0, MAX_COEF_BITS);
  }

  lemma RunZrl(v: seq<int>, k: nat, c: nat, se: nat, done: seq<Token>)
    requires Running(v, k, c, se, done) && k <= se && v[k] != 0 && k - c > 15
    ensures Running(v, k, c + 16, se, done + [Sym(0xF0)])
  {
    NextIs(v, c, k, se);
    assert AcTokens(v, c, se) == [Sym(0xF0)] + AcTokens(v, c + 16, se);
    Reassociate(done, [Sym(0xF0)], AcTokens(v, c + 16, se));
  }

  lemma RunValue(v: seq<int>, k: nat, c: nat, se: nat, done: seq<Token>)
    requires Running(v, k, c, se, done) && k <= se && v[k] != 0 && k - c <= 15
    ensures AcTokens(v, 1, se) == done + (ValueTokens(k - c, v[k]) + AcTokens(v, k + 1, se))
    ensures BitLength(Abs(v[k])) <= MAX_COEF_BITS ==> Running(v, k + 1, k + 1, se, done + ValueTokens(k - c, v[k]))
  {
    hide ValueTokens, BitLength;
    NextIs(v, c, k, se);
    Reassociate(done, ValueTokens(k - c, v[k]), AcTokens(v, k + 1, se));
  }

  lemma RunEnd(v: seq<int>, c: nat, se: nat, done: seq<Token>)
    requires Running(v, se + 1, c, se, done)
    ensures AcTokens(v, 1, se) == done + if c <= se then [Sym(0)] else []
  {
    NextIs(v, c, se + 1, se);
  }

  /** A prefix that lacks a code spoils the whole. */
  lemma CodedPrefix(c: CTable, done: seq<Token>, more: seq<Token>)
    requires IsCTable(c)
    ensures Coded(c, done + more) <==> Coded(c, done) && Coded(c, more)
  {
    var all := done + more;
    if Coded(c, all) {
      forall i | 0 <= i < |done| && done[i].Sym? ensures done[i].s < 256 && c.si[done[i].s] > 0 {
        assert all[i] == done[i];
      }
      forall i | 0 <= i < |more| && more[i].Sym? ensures more[i].s < 256 && c.si[more[i].s] > 0 {
        assert all[|done| + i] == more[i];
      }
    }
  }

  // The output pass -----------------------------------------------------------------------

  /** A symbol and the bits of a value. */
  method EmitValue(w: Writer, c: CTable, r: nat, x: int, nbits: nat) returns (ok: bool)
    requires w.Valid() && IsCTable(c) && nbits == BitLength(Abs(x)) <= 15 && r <= 15
    modifies w
    ensures w.Valid() && w.prior == old(w.prior) && (ok <==> Coded(c, ValueTokens(r, x)))
    ensures ok ==> w.Written() == old(w.Written()) + AllBits(c, ValueTokens(r, x))
  {
    hide BitsOf, Writer.Written, Writer.Valid, BitLength, AllBits, ValueTokens, Coded;
    var symbol := 16 * r + nbits;
    ValueBits(c, r, x);
    ok := w.EmitBits(c.co[symbol], c.si[symbol]);
    if !ok {
      return;
    }
    if nbits > 0 {
      var fine := w.EmitBits(if x < 0 then x - 1 else x, nbits);
    }
  }

  /** What a value's tokens are as bits. */
  lemma ValueBits(c: CTable, r: nat, x: int)
    requires IsCTable(c) && BitLength(Abs(x)) <= 15 && r <= 15
    ensures var n := BitLength(Abs(x)); var s := 16 * r + n;
      && (Coded(c, ValueTokens(r, x)) <==> c.si[s] > 0)
      && AllBits(c, ValueTokens(r, x)) == BitsOf(c.co[s], c.si[s]) + if n > 0 then BitsOf(Complemented(x), n) else []
  {
    hide BitsOf, BitLength;
    var n := BitLength(Abs(x));
    var head, raw := Sym(16 * r + n), Raw(Complemented(x), n);
    AllBitsSnoc(c, [], head);
    NoTokensBits(c);
    assert [] + [head] == [head];
    assert ValueTokens(r, x)[0] == head;
    if n > 0 {
      AllBitsSnoc(c, [head], raw);
      assert ValueTokens(r, x) == [head] + [raw];
    } else {
      assert ValueTokens(r, x) == [head];
    }
  }

  lemma NoTokensBits(c: CTable)
    requires IsCTable(c)
    ensures AllBits(c, []) == []
  {
  }

  /** encode_one_block. It stops with an error for a value out of range or a missing code. */
  method EncodeOneBlock(w: Writer, block: seq<int>, last: int, dct: CTable, act: CTable, order: seq<nat>, se: nat)
    returns (ok: bool)
    requires w.Valid() && IsCTable(dct) && IsCTable(act) && |block| == 64 && IsZigzag(order) && se < 64
    modifies w
    ensures w.Valid() && w.prior == old(w.prior)
    ensures var v := Zigzag(block, order);
      && (ok <==> InRange(v, last, se) && Coded(dct, ValueTokens(0, v[0] - last)) && Coded(act, AcTokens(v, 1, se)))
      && (ok ==> w.Written() ==
                 old(w.Written()) + (AllBits(dct, ValueTokens(0, v[0] - last)) + AllBits(act, AcTokens(v, 1, se))))
  {
    hide BitsOf, Writer.Written, Writer.Valid, BitLength, AllBits, AcTokens, Coded, ValueTokens, IsCTable;
    ghost var v := Zigzag(block, order);
    var temp := block[0] - last;
    var nbits := CountBits(if temp < 0 then -temp else temp);
    if nbits > MAX_COEF_BITS + 1 {
      return false;
    }
    ok := EmitValue(w, dct, 0, temp, nbits);
    if !ok {
      return;
    }
    ok := EncodeAc(w, block, act, order, se);
  }

  method EmitZrls(w: Writer, act: CTable, ghost k: nat, ghost se: nat, zeros: nat, ghost v: seq<int>, ghost from: nat,
                  ghost before: seq<Token>, ghost w0: seq<int>)
    returns (ok: bool, r: nat, ghost c: nat, ghost done: seq<Token>)
    requires w.Valid() && IsCTable(act) && k <= se && Running(v, k, from, se, before) && v[k] != 0 && zeros == k - from
    requires Coded(act, before) && w.Written() == w0 + AllBits(act, before)
    modifies w
    ensures w.Valid() && w.prior == old(w.prior)
    ensures if ok then Running(v, k, c, se, done) && r == k - c <= 15 && Coded(act, done) &&
                       w.Written() == w0 + AllBits(act, done)
            else !Coded(act, AcTokens(v, 1, se))
  {
    hide BitsOf, Writer.Written, Writer.Valid, BitLength, AllBits, AcTokens, Coded, ValueTokens, IsCTable;
    ok, r, c, done := true, zeros, from, before;
    while r > 15
      invariant Running(v, k, c, se, done) && r == k - c && w.Valid() && w.prior == old(w.prior)
      invariant Coded(act, done) && w.Written() == w0 + AllBits(act, done)
    {
      RunZrl(v, k, c, se, done);
      CodedPrefix(act, done, [Sym(0xF0)]);
      CodedPrefix(act, done + [Sym(0xF0)], AcTokens(v, c + 16, se));
      ok := EmitSymbol(w, act, 0xF0);
      if !ok {
        return;
      }
      AllBitsConcat(act, done, [Sym(0xF0)]);
      done := done + [Sym(0xF0)];
      c := c + 16;
      r := r - 16;
    }
  }

  method EncodeAc(w: Writer, block: seq<int>, act: CTable, order: seq<nat>, se: nat) returns (ok: bool)
    requires w.Valid() && IsCTable(act) && |block| == 64 && IsZigzag(order) && se < 64
    modifies w
    ensures w.Valid() && w.prior == old(w.prior)
    ensures var v := Zigzag(block, order);
      && (ok <==> Coded(act, AcTokens(v, 1, se)) && forall k :: 1 <= k <= se ==> BitLength(Abs(v[k])) <= MAX_COEF_BITS)
      && (ok ==> w.Written() == old(w.Written()) + AllBits(act, AcTokens(v, 1, se)))
  {
    hide BitsOf, Writer.Written, Writer.Valid, BitLength, AllBits, AcTokens, Coded, ValueTokens, IsCTable;
    ghost var v := Zigzag(block, order);
    ghost var done: seq<Token>, c: nat := [], 1;
    RunStart(v, se);
    NoTokensBits(act);
    NothingCoded(act);
    var r, k := 0, 1;
    while k <= se
      invariant Running(v, k, c, se, done) && r == k - c && w.Valid() && w.prior == old(w.prior)
      invariant Coded(act, done) && w.Written() == old(w.Written()) + AllBits(act, done)
    {
      var temp := block[order[k]];
      if temp == 0 {
        RunZero(v, k, c, se, done);
        r := r + 1;
      } else {
        ok, r, c, done := EmitZrls(w, act, k, se, r, v, c, done, old(w.Written()));
        if !ok {
          return;
        }
        var magnitude := if temp < 0 then -temp else temp;
        var nbits := FloorLog2(magnitude);
        nbits := nbits + 1;
        LengthIs(magnitude);
        if nbits > MAX_COEF_BITS {
          return false;
        }
        RunValue(v, k, c, se, done);
        CodedPrefix(act, done, ValueTokens(r, temp) + AcTokens(v, k + 1, se));
        CodedPrefix(act, ValueTokens(r, temp), AcTokens(v, k + 1, se));
        CodedPrefix(act, done, ValueTokens(r, temp));
        ok := EmitValue(w, act, r, temp, nbits);
        if !ok {
          return;
        }
        AllBitsConcat(act, done, ValueTokens(r, temp));
        done := done + ValueTokens(r, temp);
        c := k + 1;
        r := 0;
      }
      k := k + 1;
    }
    RunEnd(v, c, se, done);
    assert done + [] == done;
    ok := true;
    if r > 0 {
      CodedPrefix(act, done, [Sym(0)]);
      AllBitsConcat(act, done, [Sym(0)]);
      ok := EmitSymbol(w, act, 0);
    }
  }

  lemma NothingCoded(c: CTable)
    requires IsCTable(c)
    ensures Coded(c, [])
  {
  }

  lemma LengthIs(x: nat)
    requires x > 0
    ensures BitLength(x) == Log2(x) + 1
  {
  }

  method EmitSymbol(w: Writer, c: CTable, s: nat) returns (ok: bool)
    requires w.Valid() && IsCTable(c) && s < 256
    modifies w
    ensures w.Valid() && w.prior == old(w.prior) && (ok <==> Coded(c, [Sym(s)]))
    ensures ok ==> w.Written() == old(w.Written()) + AllBits(c, [Sym(s)])
  {
    hide BitsOf, Writer.Written, Writer.Valid;
    assert [Sym(s)][0] == Sym(s);
    ok := w.EmitBits(c.co[s], c.si[s]);
    AllBitsSnoc(c, [], Sym(s));
    assert [] + [Sym(s)] == [Sym(s)];
  }

  // The statistics pass --------------------------------------------------------------------

  /** The counters hold what they held at first plus the symbols of ts, table by table. */
  ghost predicate Tallied(counts: array2<nat>, base: seq<seq<nat>>, ts: seq<Tagged>)
    reads counts
  {
    && counts.Length0 == |base| == 8 && counts.Length1 == 257 && (forall t :: 0 <= t < 8 ==> |base[t]| == 257)
    && forall t, s :: 0 <= t < 8 && 0 <= s < 256 ==> counts[t, s] == base[t][s] + Count(Only(ts, t), s)
  }

  lemma OnlySnoc(ts: seq<Tagged>, k: Tagged, t: nat)
    ensures Only(ts + [k], t) == Only(ts, t) + if k.tbl == t then [k.tok] else []
  {
    assert (ts + [k])[..|ts|] == ts;
  }

  /** Counting one symbol. */
  method CountSymbol(counts: array2<nat>, tbl: nat, s: nat, ghost base: seq<seq<nat>>, ghost ts: seq<Tagged>)
    requires Tallied(counts, base, ts) && tbl < 8 && s < 256
    modifies counts
    ensures Tallied(counts, base, ts + [Tagged(tbl, Sym(s))])
  {
    forall t, u | 0 <= t < 8 && 0 <= u < 256
      ensures Count(Only(ts + [Tagged(tbl, Sym(s))], t), u) ==
              Count(Only(ts, t), u) + if t == tbl && u == s then 1 else 0
    {
      OnlySnoc(ts, Tagged(tbl, Sym(s)), t);
      if t == tbl {
        CountSnoc(Only(ts, t), Sym(s), u);
      } else {
        assert Only(ts, t) + [] == Only(ts, t);
      }
    }
    hide Count, Only;
    counts[tbl, s] := counts[tbl, s] + 1;
  }

  /** Raw bits are not counted. */
  lemma RawUncounted(counts: array2<nat>, base: seq<seq<nat>>, ts: seq<Tagged>, tbl: nat, v: int, n: nat)
    requires Tallied(counts, base, ts)
    ensures Tallied(counts, base, ts + [Tagged(tbl, Raw(v, n))])
  {
    var k := Tagged(tbl, Raw(v, n));
    forall t, u | 0 <= t < 8 && 0 <= u < 256 ensures Count(Only(ts + [k], t), u) == Count(Only(ts, t), u) {
      OnlySnoc(ts, k, t);
      if t == tbl {
        CountSnoc(Only(ts, t), k.tok, u);
      } else {
        assert Only(ts, t) + [] == Only(ts, t);
      }
    }
    hide Count, Only;
  }

  method CountValue(counts: array2<nat>, tbl: nat, r: nat, x: int, nbits: nat, ghost base: seq<seq<nat>>,
                    ghost ts: seq<Tagged>)
    requires Tallied(counts, base, ts) && tbl < 8 && nbits == BitLength(Abs(x)) <= 15 && r <= 15
    modifies counts
    ensures Tallied(counts, base, ts + Tag(tbl, ValueTokens(r, x)))
  {
    hide Tallied, BitLength;
    CountSymbol(counts, tbl, 16 * r + nbits, base, ts);
    ghost var head, raw := Tagged(tbl, Sym(16 * r + nbits)), Tagged(tbl, Raw(Complemented(x), nbits));
    if nbits > 0 {
      RawUncounted(counts, base, ts + [head], tbl, Complemented(x), nbits);
      assert Tag(tbl, ValueTokens(r, x)) == [head, raw];
      assert ts + [head] + [raw] == ts + [head, raw];
    } else {
      assert Tag(tbl, ValueTokens(r, x)) == [head];
    }
  }

  lemma TagConcat(ts: seq<Tagged>, t: nat, s: seq<Token>, more: seq<Token>)
    ensures ts + Tag(t, s + more) == ts + Tag(t, s) + Tag(t, more)
  {
  }

  /** htest_one_block: counts exactly the symbols that encode_one_block sends. */
  method HtestOneBlock(block: seq<int>, last: int, counts: array2<nat>, dc: nat, ac: nat, order: seq<nat>, se: nat,
                       ghost base: seq<seq<nat>>, ghost ts: seq<Tagged>)
    returns (ok: bool)
    requires |block| == 64 && IsZigzag(order) && se < 64 && Tallied(counts, base, ts) && dc < 4 && ac < 4
    modifies counts
    ensures var v := Zigzag(block, order);
      && (ok <==> InRange(v, last, se))
      && (ok ==> Tallied(counts, base, ts + (Tag(dc, ValueTokens(0, v[0] - last)) + Tag(4 + ac, AcTokens(v, 1, se)))))
  {
    hide BitLength, AcTokens, ValueTokens, Tallied, Tag;
    ghost var v := Zigzag(block, order);
    var temp := block[0] - last;
    var nbits := CountBits(if temp < 0 then -temp else temp);
    if nbits > MAX_COEF_BITS + 1 {
      return false;
    }
    CountValue(counts, dc, 0, temp, nbits, base, ts);
    ok := HtestAc(block, counts, 4 + ac, order, se, base, ts + Tag(dc, ValueTokens(0, temp)));
    assert ts + Tag(dc, ValueTokens(0, temp)) + Tag(4 + ac, AcTokens(v, 1, se)) ==
           ts + (Tag(dc, ValueTokens(0, temp)) + Tag(4 + ac, AcTokens(v, 1, se)));
  }

  method CountZrls(counts: array2<nat>, tbl: nat, ghost k: nat, ghost se: nat, zeros: nat, ghost v: seq<int>,
                   ghost from: nat, ghost base: seq<seq<nat>>, ghost ts: seq<Tagged>, ghost before: seq<Token>)
    returns (r: nat, ghost c: nat, ghost done: seq<Token>)
    requires tbl < 8 && k <= se && Running(v, k, from, se, before) && v[k] != 0 && zeros == k - from
    requires Tallied(counts, base, ts + Tag(tbl, before))
    modifies counts
    ensures Running(v, k, c, se, done) && r == k - c <= 15 && Tallied(counts, base, ts + Tag(tbl, done))
  {
    hide BitLength, AcTokens, ValueTokens, Tallied, Tag;
    r, c, done := zeros, from, before;
    while r > 15
      invariant Running(v, k, c, se, done) && r == k - c && Tallied(counts, base, ts + Tag(tbl, done))
    {
      RunZrl(v, k, c, se, done);
      CountSymbol(counts, tbl, 0xF0, base, ts + Tag(tbl, done));
      TagOne(tbl, Sym(0xF0));
      TagConcat(ts, tbl, done, [Sym(0xF0)]);
      done := done + [Sym(0xF0)];
      c := c + 16;
      r := r - 16;
    }
  }

  method HtestAc(block: seq<int>, counts: array2<nat>, tbl: nat, order: seq<nat>, se: nat, ghost base: seq<seq<nat>>,
                 ghost ts: seq<Tagged>)
    returns (ok: bool)
    requires |block| == 64 && IsZigzag(order) && se < 64 && Tallied(counts, base, ts) && tbl < 8
    modifies counts
    ensures var v := Zigzag(block, order);
      && (ok <==> forall k :: 1 <= k <= se ==> BitLength(Abs(v[k])) <= MAX_COEF_BITS)
      && (ok ==> Tallied(counts, base, ts + Tag(tbl, AcTokens(v, 1, se))))
  {
    hide BitLength, AcTokens, ValueTokens, Tallied, Tag;
    ghost var v := Zigzag(block, order);
    ghost var done: seq<Token>, c: nat := [], 1;
    RunStart(v, se);
    assert ts + Tag(tbl, []) == ts;
    var r, k := 0, 1;
    while k <= se
      invariant Running(v, k, c, se, done) && r == k - c && Tallied(counts, base, ts + Tag(tbl, done))
    {
      var temp := block[order[k]];
      if temp == 0 {
        RunZero(v, k, c, se, done);
        r := r + 1;
      } else {
        r, c, done := CountZrls(counts, tbl, k, se, r, v, c, base, ts, done);
        temp := if temp < 0 then -temp else temp;
        var nbits := FloorLog2(temp);
        nbits := nbits + 1;
        LengthIs(temp);
        if nbits > MAX_COEF_BITS {
          return false;
        }
        RunValue(v, k, c, se, done);
        CountValue(counts, tbl, r, block[order[k]], nbits, base, ts + Tag(tbl, done));
        TagConcat(ts, tbl, done, ValueTokens(r, v[k]));
        done := done + ValueTokens(r, v[k]);
        c := k + 1;
        r := 0;
      }
      k := k + 1;
    }
    RunEnd(v, c, se, done);
    assert done + [] == done;
    if r > 0 {
      CountSymbol(counts, tbl, 0, base, ts + Tag(tbl, done));
      TagOne(tbl, Sym(0));
      TagConcat(ts, tbl, done, [Sym(0)]);
    }
    ok := true;
  }

  lemma TagOne(t: nat, k: Token)
    ensures Tag(t, [k]) == [Tagged(t, k)]
  {
  }
}
