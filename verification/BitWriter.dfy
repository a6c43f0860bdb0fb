/** Writing bits: bits are left-justified in a 24-bit buffer, whole bytes go out with zero
    stuffing, and at most 7 bits stay behind between calls. */
module BitWriter {
  import opened Numbers
  import opened Bits
  import opened ByteStuffing

  class Writer {
    var put_buffer: int
    var put_bits: int
    var out: seq<int>

    /** Bytes before the segment, the segment's data bytes, and the bits not yet in a byte. */
    ghost var prior: seq<int>
    ghost var data: seq<int>
    ghost var held: seq<int>

    ghost predicate Valid()
      reads this
    {
      && 0 <= put_bits <= 7 && |held| == put_bits && IsBits(held)
      && Buffered(put_buffer, held)
      && IsBytes(data) && out == prior + Stuff(data)
    }

    /** All bits written in the segment. */
    ghost function Written(): seq<int>
      reads this
    {
      ByteBits(data) + held
    }

    constructor (dest: seq<int>)
      ensures Valid() && Written() == [] && out == prior == dest && put_bits == 0
    {
      put_buffer, put_bits, out := 0, 0, dest;
      prior, data, held := dest, [], [];
      new;
      EmptyBuffered(0);
    }

    /** Writes a data byte, with a stuffed zero after 0xFF. */
    method EmitByte(val: int)
      requires 0 <= val <= 255 && IsBytes(data) && out == prior + Stuff(data)
      modifies `out, `data
      ensures IsBytes(data) && out == prior + Stuff(data) && data == old(data) + [val]
    {
      hide Stuff;
      StuffSnoc(data, val);
      assert Stuff(data + [val]) == Stuff(data) + if val == 0xFF then [val, 0] else [val];
      out := out + [val];
      if val == 0xFF {
        out := out + [0];
      }
      data := data + [val];
    }

    /** emit_bits: fails only for a missing code (size 0), and then does nothing. */
    method EmitBits(code: int, size: nat) returns (ok: bool)
      requires Valid() && size <= 16
      modifies this
      ensures Valid() && prior == old(prior) && (ok <==> size > 0)
      ensures Written() == old(Written()) + BitsOf(code, size)
    {
      hide Stuff, Pow2, BitsOf, ByteBits, Buffered;
      if size == 0 {
        NoBits(code);
        return false;
      }
      var bits := put_bits + size;
      var buffer := code % Pow2(size) * Pow2(24 - bits) + put_buffer;
      ghost var all := Written() + BitsOf(code, size);
      MergeBuffered(put_buffer, held, code, size);
      held := held + BitsOf(code, size);
      while bits >= 8
        invariant 0 <= bits <= 23 && |held| == bits && IsBits(held) && Buffered(buffer, held)
        invariant IsBytes(data) && out == prior + Stuff(data) && prior == old(prior)
        invariant Written() == all
      {
        var c := buffer / 0x10000 % 256;
        TakeByte(buffer, held);
        ByteBitsSnoc(data, c);
        EmitByte(c);
        assert held == held[..8] + held[8..];
        buffer := buffer * 256;
        bits := bits - 8;
        held := held[8..];
      }
      put_buffer, put_bits := buffer, bits;
      ok := true;
    }

    /** flush_bits: fill any partial byte with ones and reset the buffer. */
    method Flush()
      requires Valid()
      modifies this
      ensures Valid() && prior == old(prior) && held == [] && put_bits == 0
      ensures Written() == old(Written()) + Fill(1, (8 - old(put_bits)) % 8)
    {
      hide Stuff, BitsOf, ByteBits, Buffered;
      ghost var before, n := Written(), put_bits;
      var _ := EmitBits(0x7F, 7);
      SevenOnes();
      FlushedBits(before, n, ByteBits(data), held);
      put_buffer, put_bits := 0, 0;
      held := [];
      EmptyBuffered(0);
      assert Written() == ByteBits(data);
    }

    /** A marker ends the segment and starts the next. */
    method EmitMarker(code: int)
      requires Valid() && put_bits == 0
      modifies `out, `prior, `data
      ensures Valid() && prior == old(prior) + Stuff(old(data)) + [0xFF, code] && Written() == []
    {
      hide Stuff, Buffered;
      assert held == [] && Stuff([]) == [] by { NothingStuffed([]); }
      out := out + [0xFF, code];
      prior, data := out, [];
      assert ByteBits([]) == [];
    }
  }

  /** The low 24 bits of the buffer start with the held bits; the rest are zero. Bits above
      the 24th are stale. */
  ghost predicate Buffered(buffer: int, held: seq<int>) {
    |held| <= 24 && buffer % 0x1000000 == BitVal(held) * Pow2(24 - |held|)
  }

  lemma EmptyBuffered(buffer: int)
    requires buffer == 0
    ensures Buffered(buffer, [])
  {
  }

  lemma NoBits(code: int)
    ensures BitsOf(code, 0) == []
  {
  }

  lemma MergeArithmetic(buffer: int, h: int, p: int, u: int, t: int)
    requires buffer % 0x1000000 == h * (p * u) && 0 <= (h * p + t) * u < 0x1000000
    ensures (t * u + buffer) % 0x1000000 == (h * p + t) * u
  {
    MulAssoc(h, p, u);
    assert (h * p + t) * u == h * p * u + t * u;
    ModUnique(t * u + buffer, 0x1000000, buffer / 0x1000000, (h * p + t) * u);
  }

  lemma BoundedProduct(v: int, n: nat)
    requires n <= 24 && 0 <= v < Pow2(n)
    ensures 0 <= v * Pow2(24 - n) < 0x1000000
  {
    hide Pow2;
    Pow2Add(n, 24 - n);
    Pow2Constants();
    MulLt(v, Pow2(n), Pow2(24 - n));
    MulLe(0, v, Pow2(24 - n));
  }

  /** Merging new bits below the held ones: the bitwise or is a sum. */
  lemma MergeBuffered(buffer: int, held: seq<int>, code: int, size: nat)
    requires Buffered(buffer, held) && IsBits(held) && |held| + size <= 24
    ensures Buffered(code % Pow2(size) * Pow2(24 - |held| - size) + buffer, held + BitsOf(code, size))
  {
    hide Pow2, BitVal, BitsOf;
    var t := BitsOf(code, size);
    ValBitsOf(code, size);
    BitValConcat(held, t);
    BitValBounds(held + t);
    BoundedProduct(BitVal(held + t), |held| + size);
    Pow2Add(size, 24 - |held| - size);
    MergeArithmetic(buffer, BitVal(held), Pow2(size), Pow2(24 - |held| - size), BitVal(t));
  }

  lemma SplitArithmetic(top: int, p: int, low: int, u: int)
    requires p * u == 0x10000
    ensures (top * p + low) * u == top * 0x10000 + low * u
  {
    MulAssoc(top, p, u);
    assert (top * p + low) * u == top * p * u + low * u;
  }

  /** Shifting out the top byte. */
  lemma TakeByte(buffer: int, rest: seq<int>)
    requires Buffered(buffer, rest) && IsBits(rest) && |rest| >= 8
    ensures var c := buffer / 0x10000 % 256;
      0 <= c <= 255 && BitsOf(c, 8) == rest[..8] && Buffered(buffer * 256, rest[8..])
  {
    hide Pow2, BitVal, BitsOf;
    var top, low := rest[..8], rest[8..];
    assert rest == top + low;
    BitValConcat(top, low);
    BitValBounds(top);
    BitValBounds(low);
    BitsOfVal(top);
    Pow2Constants();
    var u, l := Pow2(24 - |rest|), BitVal(low);
    Pow2Add(|low|, 24 - |rest|);
    Pow2Add(24 - |rest|, 8);
    SplitArithmetic(BitVal(top), Pow2(|low|), l, u);
    LowProduct(l, Pow2(|low|), u);
    MulAssoc(l, u, 256);
    ByteArithmetic(buffer, BitVal(top), l * u);
  }

  lemma LowProduct(l: int, p: int, u: int)
    requires 0 <= l < p && 0 < u && p * u == 0x10000
    ensures 0 <= l * u < 0x10000
  {
    MulLt(l, p, u);
    MulLe(0, l, u);
  }

  lemma ByteArithmetic(buffer: int, top: int, low: int)
    requires 0 <= top < 256 && 0 <= low < 0x10000 && buffer % 0x1000000 == top * 0x10000 + low
    ensures buffer / 0x10000 % 256 == top && buffer * 256 % 0x1000000 == low * 256
  {
    var q := buffer / 0x1000000;
    assert buffer == (q * 256 + top) * 0x10000 + low;
    ModUnique(buffer, 0x10000, q * 256 + top, low);
    ModUnique(q * 256 + top, 256, q, top);
    ModUnique(buffer * 256, 0x1000000, q * 256 + top, low * 256);
  }

  lemma SevenOnes()
    ensures BitsOf(0x7F, 7) == Fill(1, 7)
  {
    assert BitsOf(1, 1) == [1];
    assert BitsOf(3, 2) == [1, 1];
    assert BitsOf(7, 3) == [1, 1, 1];
    assert BitsOf(15, 4) == [1, 1, 1, 1];
    assert BitsOf(31, 5) == [1, 1, 1, 1, 1];
    assert BitsOf(63, 6) == [1, 1, 1, 1, 1, 1];
  }

  /** Of the seven padding ones, those that do not complete a byte are dropped. */
  lemma FlushedBits(before: seq<int>, n: nat, whole: seq<int>, held: seq<int>)
    requires n <= 7 && |before| % 8 == n && |whole| % 8 == 0 && |held| <= 7
    requires whole + held == before + Fill(1, 7)
    ensures whole == before + Fill(1, (8 - n) % 8)
  {
    assert |whole| == |before| + (8 - n) % 8;
    assert whole == (whole + held)[..|whole|];
    assert (before + Fill(1, 7))[..|whole|] == before + Fill(1, (8 - n) % 8);
  }
}
