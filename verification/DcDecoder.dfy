/** The progressive Huffman decoder's DC routines, block by block. */
module DcDecoder {
  import opened Numbers
  import opened Bits
  import opened BitReader
  import opened Tokens
  import opened Values
  import opened SequentialDecoder
  import opened ScanReader
  import HuffmanCodes

  /** A DC value x with one more bit of v. */
  function Refined(x: int, v: int, al: nat): int {
    if Floor(v, al) % 2 != 0 then SetBit(x, Pow2(al)) else x
  }

  /** Setting a bit again changes nothing, so a repeated attempt is harmless. */
  lemma RefinedTwice(x: int, v: int, al: nat)
    ensures Refined(Refined(x, v, al), v, al) == Refined(x, v, al)
  {
    var u := Pow2(al);
    if x / u % 2 == 0 {
      ModUnique(x + u, u, x / u + 1, x % u);
    }
  }

  /** decode_mcu_DC_first for one block. */
  method DecodeDcFirst(reader: Reader, d: DTable, last: int, block: array<int>, al: nat, ghost t: HuffmanCodes.Table,
                       ghost c: CTable, ghost x: int, ghost rest: seq<int>)
    returns (ok: bool, newLast: int)
    requires Live(reader) && Matched(t, c, d) && IsCTable(c) && block.Length == 64
    requires BitLength(Abs(Floor(x, al) - last)) <= MAX_COEF_BITS + 1 && Coded(c, ValueTokens(0, Floor(x, al) - last))
    requires reader.Ahead() == AllBits(c, ValueTokens(0, Floor(x, al) - last)) + rest
    modifies block
    modifies reader`pos, reader`marker, reader`get_buffer, reader`bits_left, reader`insufficient, reader`m, reader`held
    ensures Live(reader) && (old(reader.marker) != 0 ==> reader.marker != 0)
    ensures if ok then reader.Ahead() == rest && newLast == Floor(x, al) &&
                       block[..] == old(block[..])[0 := Floor(x, al) * Pow2(al)]
            else reader.avail < |reader.src| && reader.marker == 0 && block[..] == old(block[..])
  {
    hide Live, Matched, IsCTable, Reader.Ahead, AllBits, Coded, ValueTokens, BitLength, Floor;
    var s;
    newLast := last;
    ok, s := ReadDifference(reader, d, true, t, c, Floor(x, al) - last, rest);
    if !ok {
      return;
    }
    newLast := s + last;
    block[0] := newLast * Pow2(al);
  }

  /** decode_mcu_DC_refine for one block. */
  method DecodeDcRefine(reader: Reader, block: array<int>, al: nat, ghost x: int, ghost rest: seq<int>)
    returns (ok: bool)
    requires Live(reader) && block.Length == 64 && reader.Ahead() == BitsOf(Floor(x, al), 1) + rest
    modifies block
    modifies reader`pos, reader`marker, reader`get_buffer, reader`bits_left, reader`insufficient, reader`m, reader`held
    ensures Live(reader) && (old(reader.marker) != 0 ==> reader.marker != 0)
    ensures if ok then reader.Ahead() == rest && block[..] == old(block[..])[0 := Refined(old(block[0]), x, al)]
            else reader.avail < |reader.src| && reader.marker == 0 && block[..] == old(block[..])
  {
    hide Live, Reader.Ahead, BitsOf, Floor, SetBit;
    Pow2Constants();
    var bit;
    ok, bit := ReadBits(reader, 1, Floor(x, al), rest);
    if !ok {
      return;
    }
    if bit != 0 {
      block[0] := SetBit(block[0], Pow2(al));
    }
  }
}
