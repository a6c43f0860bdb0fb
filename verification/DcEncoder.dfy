/** The progressive Huffman encoder's DC routines, block by block. */
module DcEncoder {
  import opened Numbers
  import opened Bits
  import opened BitWriter
  import opened Tokens
  import opened Values
  import opened SequentialPlan
  import opened SequentialEncoder

  /** The value after the point transform, and its difference from the prediction. */
  method Difference(coef: int, last: int, al: nat) returns (temp: int, temp2: int, nbits: nat)
    ensures temp == Floor(coef, al) && temp2 == temp - last && nbits == BitLength(Abs(temp2))
  {
    hide BitLength;
    temp := coef / Pow2(al);
    temp2 := temp - last;
    nbits := CountBits(if temp2 < 0 then -temp2 else temp2);
  }

  /** encode_mcu_DC_first for one block. It stops with an error for a difference out of range or a missing
      code. */
  method EncodeDcFirst(w: Writer, block: seq<int>, last: int, dct: CTable, al: nat) returns (ok: bool, next: int)
    requires w.Valid() && IsCTable(dct) && |block| == 64
    modifies w
    ensures w.Valid() && w.prior == old(w.prior)
    ensures var x := Floor(block[0], al) - last;
      && (ok <==> BitLength(Abs(x)) <= MAX_COEF_BITS + 1 && Coded(dct, ValueTokens(0, x)))
      && (ok ==> w.Written() == old(w.Written()) + AllBits(dct, ValueTokens(0, x)) && next == Floor(block[0], al))
  {
    hide Writer.Written, Writer.Valid, BitLength, AllBits, Coded, ValueTokens, IsCTable;
    var temp2, nbits;
    next, temp2, nbits := Difference(block[0], last, al);
    if nbits > MAX_COEF_BITS + 1 {
      return false, next;
    }
    ok := EmitValue(w, dct, 0, temp2, nbits);
  }

  /** The same when only counting. */
  method GatherDcFirst(block: seq<int>, last: int, counts: array2<nat>, dc: nat, al: nat, ghost base: seq<seq<nat>>,
                       ghost ts: seq<Tagged>)
    returns (ok: bool, next: int)
    requires |block| == 64 && Tallied(counts, base, ts) && dc < 4
    modifies counts
    ensures var x := Floor(block[0], al) - last;
      && (ok <==> BitLength(Abs(x)) <= MAX_COEF_BITS + 1)
      && (ok ==> Tallied(counts, base, ts + Tag(dc, ValueTokens(0, x))) && next == Floor(block[0], al))
  {
    hide BitLength, ValueTokens, Tallied, Tag;
    var temp2, nbits;
    next, temp2, nbits := Difference(block[0], last, al);
    if nbits > MAX_COEF_BITS + 1 {
      return false, next;
    }
    CountValue(counts, dc, 0, temp2, nbits, base, ts);
    ok := true;
  }

  /** encode_mcu_DC_refine for one block: the Al'th bit of the value, in two's complement. */
  method EncodeDcRefine(w: Writer, block: seq<int>, al: nat)
    requires w.Valid() && |block| == 64
    modifies w
    ensures w.Valid() && w.prior == old(w.prior) && w.Written() == old(w.Written()) + BitsOf(Floor(block[0], al), 1)
  {
    hide Writer.Written, Writer.Valid, BitsOf;
    var _ := w.EmitBits(block[0] / Pow2(al), 1);
  }
}
