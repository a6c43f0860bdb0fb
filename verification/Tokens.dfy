/** What a Huffman coding pass produces: symbols to be coded through a table, and raw bits.
    An output pass writes their bits; a statistics pass counts the symbols. */
module Tokens {
  import opened Numbers
  import opened Bits
  import opened HuffmanCodes
  import opened HuffmanDecoding
  import opened BitReader

  datatype Token = Sym(s: nat) | Raw(v: int, n: nat)

  /** A derived encoding table: code and size by symbol, size 0 for no code. */
  datatype CTable = CTable(co: seq<int>, si: seq<int>)

  ghost predicate IsCTable(c: CTable) {
    |c.co| == |c.si| == 256 && forall s :: 0 <= s < 256 ==> 0 <= c.si[s] <= 16
  }

  ghost function TokenBits(c: CTable, k: Token): (r: seq<int>)
    requires IsCTable(c)
    ensures IsBits(r)
  {
    match k
    case Sym(s) => if s < 256 then BitsOf(c.co[s], c.si[s]) else []
    case Raw(v, n) => BitsOf(v, n)
  }

  ghost function AllBits(c: CTable, ks: seq<Token>): (r: seq<int>)
    requires IsCTable(c)
    ensures IsBits(r)
  {
    if |ks| == 0 then [] else AllBits(c, ks[..|ks| - 1]) + TokenBits(c, ks[|ks| - 1])
  }

  lemma AllBitsSnoc(c: CTable, ks: seq<Token>, k: Token)
    requires IsCTable(c)
    ensures AllBits(c, ks + [k]) == AllBits(c, ks) + TokenBits(c, k)
  {
    assert (ks + [k])[..|ks|] == ks;
  }

  lemma {:induction false} AllBitsConcat(c: CTable, s: seq<Token>, t: seq<Token>)
    requires IsCTable(c)
    ensures AllBits(c, s + t) == AllBits(c, s) + AllBits(c, t)
  {
    hide TokenBits;
    if |t| == 0 {
      assert s + t == s;
    } else {
      assert s + t == (s + t[..|t| - 1]) + [t[|t| - 1]];
      AllBitsSnoc(c, s + t[..|t| - 1], t[|t| - 1]);
      AllBitsConcat(c, s, t[..|t| - 1]);
    }
  }

  /** How often each symbol was produced. */
  function Count(ks: seq<Token>, s: nat): nat {
    if |ks| == 0 then 0 else Count(ks[..|ks| - 1], s) + if ks[|ks| - 1] == Sym(s) then 1 else 0
  }

  lemma CountSnoc(ks: seq<Token>, k: Token, s: nat)
    ensures Count(ks + [k], s) == Count(ks, s) + if k == Sym(s) then 1 else 0
  {
    assert (ks + [k])[..|ks|] == ks;
  }

  /** Every symbol has a code. */
  ghost predicate Coded(c: CTable, ks: seq<Token>)
    requires IsCTable(c)
  {
    forall i :: 0 <= i < |ks| && ks[i].Sym? ==> ks[i].s < 256 && c.si[ks[i].s] > 0
  }

  lemma {:induction false} CountPositive(ks: seq<Token>, i: nat)
    requires i < |ks| && ks[i].Sym?
    ensures Count(ks, ks[i].s) > 0
  {
    if i < |ks| - 1 {
      CountPositive(ks[..|ks| - 1], i);
    }
  }

  /** One raw bit per element. */
  function RawBits(bits: seq<int>): (r: seq<Token>)
    ensures |r| == |bits|
  {
    seq(|bits|, i requires 0 <= i < |bits| => Raw(bits[i], 1))
  }

  lemma {:induction false} RawBitsAre(c: CTable, bits: seq<int>)
    requires IsCTable(c) && IsBits(bits)
    ensures AllBits(c, RawBits(bits)) == bits
  {
    hide AllBits, BitsOf;
    if |bits| > 0 {
      var n := |bits| - 1;
      RawBitsAre(c, bits[..n]);
      assert RawBits(bits) == RawBits(bits[..n]) + [Raw(bits[n], 1)];
      AllBitsSnoc(c, RawBits(bits[..n]), Raw(bits[n], 1));
      OneBitOf(bits[n]);
      assert bits == bits[..n] + [bits[n]];
    } else {
      assert AllBits(c, RawBits(bits)) == [] by { NoTokenBits(c, RawBits(bits)); }
    }
  }

  lemma NoTokenBits(c: CTable, ks: seq<Token>)
    requires IsCTable(c)
    ensures |ks| == 0 ==> AllBits(c, ks) == []
  {
  }

  lemma OneBitOf(b: int)
    requires 0 <= b <= 1
    ensures BitsOf(b, 1) == [b]
  {
    assert BitsOf(b / 2, 0) == [];
  }

  lemma RawBitsConcat(s: seq<int>, t: seq<int>)
    ensures RawBits(s + t) == RawBits(s) + RawBits(t)
  {
  }

  /** Encoding table and decoding table made from the same Huffman table. */
  ghost predicate Matched(t: Table, c: CTable, d: DTable) {
    && IsCTable(c) && DecodesTable(d, t)
    && BySymbol(t.huffval, Lengths(t), Codes(Lengths(t)), c.co, c.si, |Lengths(t)|)
  }

  /** A symbol's code, followed by anything, decodes to the symbol. */
  lemma SymbolDecodes(t: Table, c: CTable, d: DTable, s: nat, ahead: seq<int>, rest: seq<int>)
    requires Matched(t, c, d) && s < 256 && c.si[s] > 0
    requires IsBits(ahead) && ahead == TokenBits(c, Sym(s)) + rest
    ensures |ahead| >= c.si[s] && ahead[c.si[s]..] == rest
    ensures HuffDecode(d.maxcode, d.valoffset, d.huffval, Window(ahead), 1) == Symbol(s, c.si[s])
  {
    hide Start, Pow2, Code, Sizes, BitVal, BitsOf, SerialTables, LookTables, Window, HuffDecode;
    var sizes := Lengths(t);
    var p: nat :| p < |sizes| && t.huffval[p] == s;
    var l := sizes[p];
    WindowRange(ahead);
    WindowPrefix(ahead, l);
    assert ahead[..l] == BitsOf(c.co[s], l);
    ValBitsOf(c.co[s], l);
    NotAllOnes(sizes, p);
    CodeCovers(sizes, p);
    var w := Window(ahead);
    CodeNonnegative(sizes, p);
    ModUnique(c.co[s], Pow2(l), 0, c.co[s]);
    TopBits(w, l);
    BelowEnd(w / 2, Pow2(16 - l), c.co[s]);
    BelowEnd(w / 2, Pow2(16 - l), c.co[s] - 1);
    CodedSymbol(t, d.maxcode, d.valoffset, w, 1, p);
  }

  lemma CodeNonnegative(sizes: seq<nat>, p: nat)
    requires Ascending(sizes) && p < |sizes|
    ensures 0 <= Code(sizes, p)
  {
    hide Pow2;
    CodeCovers(sizes, p);
    if Code(sizes, p) < 0 {
      MulLe(Code(sizes, p), -1, Pow2(16 - sizes[p]));
    }
  }
}
