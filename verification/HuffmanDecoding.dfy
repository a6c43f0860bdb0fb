/** Decoding one Huffman symbol: the tables of Figure F.15 of ITU-T T.81, the bit-serial
    search of Figure F.16, and the 8-bit lookahead that must agree with it. */
module HuffmanDecoding {
  import opened Numbers
  import opened HuffmanCodes

  /** Entry p is the one whose code starts the 16-bit window x. */
  ghost predicate Covers(sizes: seq<nat>, p: nat, x: int) {
    p < |sizes| && Start(sizes, p) <= x < Start(sizes, p + 1)
  }

  lemma {:induction false} SomeCovers(sizes: seq<nat>, n: nat, x: int) returns (p: nat)
    requires n <= |sizes| && 0 <= x < Start(sizes, n)
    ensures p < n && Covers(sizes, p, x)
  {
    if x >= Start(sizes, n - 1) {
      p := n - 1;
    } else {
      p := SomeCovers(sizes, n - 1, x);
    }
  }

  /** Index of the first code of length l. */
  function First(bits: seq<nat>, l: nat): nat
    requires 1 <= l <= |bits|
  {
    |Sizes(bits, l - 1)|
  }

  lemma {:induction false} SizesBlock(bits: seq<nat>, l: nat, m: nat)
    requires 1 <= l <= m < |bits|
    ensures First(bits, l) + bits[l] <= |Sizes(bits, m)|
    ensures forall p :: First(bits, l) <= p < First(bits, l) + bits[l] ==> Sizes(bits, m)[p] == l
    ensures forall p :: 0 <= p < First(bits, l) ==> Sizes(bits, m)[p] < l
    ensures forall p :: First(bits, l) + bits[l] <= p < |Sizes(bits, m)| ==> Sizes(bits, m)[p] > l
  {
    if l == m {
      SizesBelow(bits, l - 1);
    } else {
      SizesBlock(bits, l, m - 1);
    }
  }

  lemma {:induction false} SizesBelow(bits: seq<nat>, l: nat)
    requires l < |bits|
    ensures forall p :: 0 <= p < |Sizes(bits, l)| ==> Sizes(bits, l)[p] <= l
  {
    if l > 0 {
      SizesBelow(bits, l - 1);
    }
  }

  /** maxcode and valoffset. */
  ghost predicate SerialTables(bits: seq<nat>, maxcode: seq<int>, valoffset: seq<int>)
  {
    && |bits| == 17 && |maxcode| == 18 && |valoffset| == 17 && maxcode[17] == 0xFFFFF
    && forall l :: 1 <= l <= 16 ==> SerialEntry(bits, maxcode, valoffset, l)
  }

  ghost predicate SerialEntry(bits: seq<nat>, maxcode: seq<int>, valoffset: seq<int>, l: nat)
    requires |bits| == 17 && |maxcode| == 18 && |valoffset| == 17 && 1 <= l <= 16
  {
    var sizes, first := Sizes(bits, 16), First(bits, l);
    if bits[l] == 0 then maxcode[l] == -1
    else
      && first + bits[l] <= |sizes| && sizes[first + bits[l] - 1] == l && sizes[first] == l
      && maxcode[l] == Code(sizes, first + bits[l] - 1)
      && valoffset[l] == first - Code(sizes, first)
  }

  /** Figure F.16 on the next 17 bits w, starting at l bits. */
  function Serial(maxcode: seq<int>, w: nat, l: nat): (r: nat)
    requires |maxcode| == 18 && 1 <= l <= 17 && w < 0x20000 && maxcode[17] == 0xFFFFF
    ensures l <= r <= 17
    decreases 17 - l
  {
    if l == 17 || w / Pow2(17 - l) <= maxcode[l] then l else Serial(maxcode, w, l + 1)
  }

  lemma TopBits(w: nat, l: nat)
    requires 1 <= l <= 16
    ensures w / Pow2(17 - l) == (w / 2) / Pow2(16 - l)
  {
    hide Pow2;
    var u, q := Pow2(16 - l), (w / 2) / Pow2(16 - l);
    Pow2Add(1, 16 - l);
    Pow2Constants();
    assert q * u <= w / 2 < q * u + u;
    assert q * (2 * u) == 2 * (q * u) && (q + 1) * (2 * u) == 2 * (q * u) + 2 * u;
    DivUnique(w, 2 * u, q);
  }

  lemma BelowEnd(x: int, u: int, c: int)
    requires 0 <= x && u > 0
    ensures x / u <= c <==> x < (c + 1) * u
  {
    var q := x / u;
    assert q * u <= x < q * u + u;
    if q <= c { MulLe(q + 1, c + 1, u); } else { MulLe(c + 1, q, u); }
  }

  /** The comparison with maxcode asks whether the window ends before the last code of
      that length does. */
  lemma MaxcodeTest(bits: seq<nat>, maxcode: seq<int>, valoffset: seq<int>, w: nat, l: nat)
    requires SerialTables(bits, maxcode, valoffset) && Fits(Sizes(bits, 16)) && 1 <= l <= 16
    ensures w / Pow2(17 - l) <= maxcode[l] <==>
            bits[l] > 0 && First(bits, l) + bits[l] <= |Sizes(bits, 16)| &&
            w / 2 < Start(Sizes(bits, 16), First(bits, l) + bits[l])
  {
    hide Start, Code, Pow2, Sizes;
    assert SerialEntry(bits, maxcode, valoffset, l);
    TopBits(w, l);
    var x, u := w / 2, Pow2(16 - l);
    if bits[l] > 0 {
      var q := First(bits, l) + bits[l] - 1;
      CodeCovers(Sizes(bits, 16), q);
      BelowEnd(x, u, Code(Sizes(bits, 16), q));
    } else {
      BelowEnd(x, u, -1);
    }
  }

  /** Starting anywhere up to its own length, the search stops at the covering code. */
  lemma {:induction false} SerialFinds(bits: seq<nat>, maxcode: seq<int>, valoffset: seq<int>, w: nat, l: nat, p: nat)
    requires SerialTables(bits, maxcode, valoffset) && Fits(Sizes(bits, 16)) && w < 0x20000
    requires Covers(Sizes(bits, 16), p, w / 2) && 1 <= l <= Sizes(bits, 16)[p]
    ensures Serial(maxcode, w, l) == Sizes(bits, 16)[p]
    decreases 17 - l
  {
    hide Start, Code, Pow2, Sizes;
    var sizes := Sizes(bits, 16);
    MaxcodeTest(bits, maxcode, valoffset, w, l);
    SizesBlock(bits, l, 16);
    var e := First(bits, l) + bits[l];
    if l == sizes[p] {
      StartMonotonic(sizes, p + 1, e);
    } else {
      StartMonotonic(sizes, e, p);
      SerialFinds(bits, maxcode, valoffset, w, l + 1, p);
    }
  }

  /** A window past the last code is a bad code: 17 bits are consumed. */
  lemma {:induction false} SerialFails(bits: seq<nat>, maxcode: seq<int>, valoffset: seq<int>, w: nat, l: nat)
    requires SerialTables(bits, maxcode, valoffset) && Fits(Sizes(bits, 16)) && w < 0x20000 && 1 <= l <= 17
    requires w / 2 >= Start(Sizes(bits, 16), |Sizes(bits, 16)|)
    ensures Serial(maxcode, w, l) == 17
    decreases 17 - l
  {
    hide Start, Code, Pow2, Sizes;
    if l <= 16 {
      var sizes := Sizes(bits, 16);
      MaxcodeTest(bits, maxcode, valoffset, w, l);
      SizesBlock(bits, l, 16);
      StartMonotonic(sizes, First(bits, l) + bits[l], |sizes|);
      SerialFails(bits, maxcode, valoffset, w, l + 1);
    }
  }

  lemma SameLengthRun(sizes: seq<nat>, p: nat, q: nat)
    requires Ascending(sizes) && p <= q < |sizes| && sizes[p] == sizes[q]
    ensures Code(sizes, q) == Code(sizes, p) + (q - p)
    decreases q - p
  {
    hide Start, Code, Pow2;
    if p < q {
      SameLengthRun(sizes, p, q - 1);
      var u := Pow2(16 - sizes[q]);
      CodeCovers(sizes, q - 1);
      CodeCovers(sizes, q);
      assert sizes[q - 1] == sizes[q];
      SameProduct(Code(sizes, q), Code(sizes, q - 1) + 1, u);
    }
  }

  lemma SameProduct(x: int, y: int, u: int)
    requires u > 0 && x * u == y * u
    ensures x == y
  {
    if x < y { MulLt(x, y, u); } else if y < x { MulLt(y, x, u); }
  }

  /** valoffset turns the code into the entry's index. */
  lemma OffsetFinds(bits: seq<nat>, maxcode: seq<int>, valoffset: seq<int>, w: nat, p: nat)
    requires SerialTables(bits, maxcode, valoffset) && Fits(Sizes(bits, 16))
    requires Covers(Sizes(bits, 16), p, w / 2)
    ensures var l := Sizes(bits, 16)[p]; w / Pow2(17 - l) + valoffset[l] == p
  {
    hide Start, Code, Pow2, Sizes;
    var sizes := Sizes(bits, 16);
    var l := sizes[p];
    SizesBlock(bits, l, 16);
    assert SerialEntry(bits, maxcode, valoffset, l);
    SameLengthRun(sizes, First(bits, l), p);
    TopBits(w, l);
    CodeCovers(sizes, p);
    DivUnique(w / 2, Pow2(16 - l), Code(sizes, p));
  }

  /** The lookahead tables: an entry per byte that starts with a code of at most 8 bits. */
  ghost predicate LookTables(sizes: seq<nat>, huffval: seq<nat>, nbits: seq<int>, sym: seq<int>) {
    && |nbits| == |sym| == 256 && |sizes| <= |huffval|
    && forall b :: 0 <= b < 256 ==> LookEntry(sizes, huffval, nbits, sym, b)
  }

  ghost predicate LookEntry(sizes: seq<nat>, huffval: seq<nat>, nbits: seq<int>, sym: seq<int>, b: nat)
    requires b < 256 && |nbits| == |sym| == 256 && |sizes| <= |huffval|
  {
    if nbits[b] != 0 then
      exists p: nat :: Covers(sizes, p, b * 256) && sizes[p] <= 8 && nbits[b] == sizes[p] && sym[b] == huffval[p]
    else
      forall p :: 0 <= p < |sizes| && sizes[p] <= 8 ==> Start(sizes, p + 1) <= b * 256
  }

  /** A byte that starts with a short code does so whatever bits follow it. */
  lemma ShortCovers(sizes: seq<nat>, p: nat, b: nat, x: int)
    requires Ascending(sizes) && Covers(sizes, p, b * 256) && sizes[p] <= 8 && b * 256 <= x < b * 256 + 256
    ensures Covers(sizes, p, x)
  {
    hide Start, Pow2, Code;
    CodeCovers(sizes, p);
    Pow2Add(8 - sizes[p], 8);
    Pow2Constants();
    var c, d := Code(sizes, p) + 1, Pow2(8 - sizes[p]);
    MulAssoc(c, d, 256);
  }

  datatype Symbol = Symbol(value: int, used: nat)

  /** jpeg_huff_decode starting at l bits; a bad code yields 0 after 17 bits. */
  function HuffDecode(maxcode: seq<int>, valoffset: seq<int>, huffval: seq<nat>, w: nat, l: nat): Symbol
    requires |maxcode| == 18 && |valoffset| == 17 && 1 <= l <= 17 && w < 0x20000 && maxcode[17] == 0xFFFFF
  {
    var n := Serial(maxcode, w, l);
    if n > 16 then Symbol(0, n)
    else
      var i := w / Pow2(17 - n) + valoffset[n];
      Symbol(if 0 <= i < |huffval| then huffval[i] else 0, n)
  }

  /** The HUFF_DECODE macro with at least 8 bits at hand. */
  function Lookahead(maxcode: seq<int>, valoffset: seq<int>, huffval: seq<nat>, nbits: seq<int>, sym: seq<int>,
                     w: nat): Symbol
    requires |maxcode| == 18 && |valoffset| == 17 && w < 0x20000 && maxcode[17] == 0xFFFFF
    requires |nbits| == |sym| == 256 && forall b :: 0 <= b < 256 ==> nbits[b] >= 0
  {
    var look := w / 512;
    if nbits[look] != 0 then Symbol(sym[look], nbits[look])
    else HuffDecode(maxcode, valoffset, huffval, w, 9)
  }

  /** The symbol of the code that starts the bits. */
  lemma CodedSymbol(t: Table, maxcode: seq<int>, valoffset: seq<int>, w: nat, l: nat, p: nat)
    requires IsTable(t) && Fits(Lengths(t)) && SerialTables(t.bits, maxcode, valoffset) && w < 0x20000
    requires Covers(Lengths(t), p, w / 2) && 1 <= l <= Lengths(t)[p]
    ensures HuffDecode(maxcode, valoffset, t.huffval, w, l) == Symbol(t.huffval[p], Lengths(t)[p])
  {
    hide Start, Pow2, Sizes;
    SerialFinds(t.bits, maxcode, valoffset, w, l, p);
    OffsetFinds(t.bits, maxcode, valoffset, w, p);
  }

  /** The lookahead path agrees with bit-serial decoding on every bit string, including those
      that start with no code. */
  lemma LookaheadAgrees(t: Table, maxcode: seq<int>, valoffset: seq<int>, nbits: seq<int>, sym: seq<int>, w: nat)
    requires IsTable(t) && Fits(Lengths(t)) && SerialTables(t.bits, maxcode, valoffset) && w < 0x20000
    requires LookTables(Lengths(t), t.huffval, nbits, sym) && forall b :: 0 <= b < 256 ==> nbits[b] >= 0
    ensures Lookahead(maxcode, valoffset, t.huffval, nbits, sym, w) == HuffDecode(maxcode, valoffset, t.huffval, w, 1)
  {
    hide Start, Pow2, Sizes, Serial, Code;
    var sizes, look := Lengths(t), w / 512;
    assert LookEntry(sizes, t.huffval, nbits, sym, look);
    if nbits[look] != 0 {
      var p: nat :| Covers(sizes, p, look * 256) && sizes[p] <= 8 && nbits[look] == sizes[p] &&
        sym[look] == t.huffval[p];
      ShortCovers(sizes, p, look, w / 2);
      CodedSymbol(t, maxcode, valoffset, w, 1, p);
    } else if w / 2 < Start(sizes, |sizes|) {
      var p := SomeCovers(sizes, |sizes|, w / 2);
      LongCode(sizes, p, look, w / 2);
      CodedSymbol(t, maxcode, valoffset, w, 1, p);
      CodedSymbol(t, maxcode, valoffset, w, 9, p);
    } else {
      SerialFails(t.bits, maxcode, valoffset, w, 1);
      SerialFails(t.bits, maxcode, valoffset, w, 9);
    }
  }

  lemma LongCode(sizes: seq<nat>, p: nat, b: nat, x: int)
    requires Covers(sizes, p, x) && b * 256 <= x < b * 256 + 256 && Ascending(sizes)
    requires forall q :: 0 <= q < |sizes| && sizes[q] <= 8 ==> Start(sizes, q + 1) <= b * 256
    ensures sizes[p] >= 9
  {
  }

  // Building the tables ----------------------------------------------------------------

  lemma {:induction false} FirstSum(bits: seq<nat>, l: nat)
    requires 1 <= l < |bits|
    ensures First(bits, l) + bits[l] == |Sizes(bits, l)|
  {
  }

  /** Figure F.15. */
  method FillSerialTables(bits: seq<nat>, huffcode: seq<int>, maxcode: array<int>, valoffset: array<int>)
    requires |bits| == 17 && Ascending(Sizes(bits, 16)) && huffcode == Codes(Sizes(bits, 16))
    requires maxcode.Length == 18 && valoffset.Length == 17
    modifies maxcode, valoffset
    ensures SerialTables(bits, maxcode[..], valoffset[..])
  {
    hide Start, Pow2, Code;
    var p, l := 0, 1;
    while l <= 16
      invariant 1 <= l <= 17 && p == First(bits, l)
      invariant forall k :: 1 <= k < l ==> SerialEntry(bits, maxcode[..], valoffset[..], k)
    {
      SizesBlock(bits, l, 16);
      ghost var m0, v0 := maxcode[..], valoffset[..];
      if bits[l] != 0 {
        valoffset[l] := p - huffcode[p];
        p := p + bits[l];
        maxcode[l] := huffcode[p - 1];
      } else {
        maxcode[l] := -1;
      }
      assert SerialEntry(bits, maxcode[..], valoffset[..], l);
      forall k | 1 <= k < l ensures SerialEntry(bits, maxcode[..], valoffset[..], k) {
        assert SerialEntry(bits, m0, v0, k);
      }
      l := l + 1;
    }
    ghost var m1 := maxcode[..];
    maxcode[17] := 0xFFFFF;
    forall k | 1 <= k <= 16 ensures SerialEntry(bits, maxcode[..], valoffset[..], k) {
      assert SerialEntry(bits, m1, valoffset[..], k);
    }
  }

  /** The lookahead entries of the codes before index n are in place. */
  ghost predicate LookFilled(sizes: seq<nat>, huffval: seq<nat>, nbits: seq<int>, sym: seq<int>, n: nat, e: int)
    requires |nbits| == |sym| == 256 && n <= |sizes| <= |huffval|
  {
    forall b :: 0 <= b < 256 ==> if b < e then Filled(sizes, huffval, nbits[b], sym[b], b, n) else nbits[b] == 0
  }

  /** Pattern b starts with the code of one of the first n entries. */
  ghost predicate Filled(sizes: seq<nat>, huffval: seq<nat>, nbit: int, symbol: int, b: nat, n: nat)
    requires n <= |sizes| <= |huffval|
  {
    exists p: nat :: p < n && Covers(sizes, p, b * 256) && sizes[p] <= 8 && nbit == sizes[p] && symbol == huffval[p]
  }

  lemma FilledMore(sizes: seq<nat>, huffval: seq<nat>, nbits: seq<int>, sym: seq<int>, n: nat, e: int)
    requires |nbits| == |sym| == 256 && n < |sizes| <= |huffval| && LookFilled(sizes, huffval, nbits, sym, n, e)
    ensures LookFilled(sizes, huffval, nbits, sym, n + 1, e)
  {
    hide Covers;
    forall b | 0 <= b < 256 && b < e ensures Filled(sizes, huffval, nbits[b], sym[b], b, n + 1) {
      assert Filled(sizes, huffval, nbits[b], sym[b], b, n);
    }
  }

  lemma ShortCode(sizes: seq<nat>, p: nat)
    requires Fits(sizes) && p < |sizes| && sizes[p] <= 8
    ensures var d := Pow2(8 - sizes[p]);
      && 0 <= Code(sizes, p) * d && (Code(sizes, p) + 1) * d <= 256
      && Start(sizes, p) == Code(sizes, p) * d * 256 && Start(sizes, p + 1) == (Code(sizes, p) + 1) * d * 256
  {
    hide Start, Pow2, Code;
    CodeCovers(sizes, p);
    Pow2Add(8 - sizes[p], 8);
    Pow2Constants();
    var c, d := Code(sizes, p), Pow2(8 - sizes[p]);
    MulAssoc(c, d, 256);
    MulAssoc(c + 1, d, 256);
    StartMonotonic(sizes, p + 1, |sizes|);
  }

  /** All bit patterns that start with the code of entry p. */
  method FillPatterns(ghost sizes: seq<nat>, huffval: seq<nat>, code: int, p: nat, l: nat, nbits: array<int>,
                      sym: array<int>)
    requires Fits(sizes) && p < |sizes| <= |huffval| && sizes[p] == l <= 8 && code == Code(sizes, p)
    requires nbits.Length == sym.Length == 256 && nbits != sym
    requires LookFilled(sizes, huffval, nbits[..], sym[..], p, code * Pow2(8 - l))
    modifies nbits, sym
    ensures LookFilled(sizes, huffval, nbits[..], sym[..], p + 1, (code + 1) * Pow2(8 - l))
  {
    hide Start, Pow2, Code;
    ShortCode(sizes, p);
    var lookbits := code * Pow2(8 - l);
    var ctr := Pow2(8 - l);
    ghost var last := lookbits + ctr;
    Distribute(code, 1, Pow2(8 - l));
    FilledMore(sizes, huffval, nbits[..], sym[..], p, lookbits);
    while ctr > 0
      invariant 0 <= ctr && lookbits + ctr == last && code * Pow2(8 - l) <= lookbits
      invariant LookFilled(sizes, huffval, nbits[..], sym[..], p + 1, lookbits)
      decreases ctr
    {
      ghost var n0, s0 := nbits[..], sym[..];
      nbits[lookbits] := l;
      sym[lookbits] := huffval[p];
      assert Covers(sizes, p, lookbits * 256);
      LookOneMore(sizes, huffval, n0, s0, p, lookbits);
      assert nbits[..] == n0[lookbits := sizes[p]] && sym[..] == s0[lookbits := huffval[p]];
      lookbits := lookbits + 1;
      ctr := ctr - 1;
    }
  }

  lemma LookOneMore(sizes: seq<nat>, huffval: seq<nat>, nbits: seq<int>, sym: seq<int>, p: nat, e: nat)
    requires |nbits| == |sym| == 256 && p < |sizes| <= |huffval| && e < 256 && sizes[p] <= 8
    requires LookFilled(sizes, huffval, nbits, sym, p + 1, e) && Covers(sizes, p, e * 256)
    ensures LookFilled(sizes, huffval, nbits[e := sizes[p]], sym[e := huffval[p]], p + 1, e + 1)
  {
    hide Filled;
    FilledHere(sizes, huffval, p, e);
  }

  lemma FilledHere(sizes: seq<nat>, huffval: seq<nat>, p: nat, e: nat)
    requires p < |sizes| <= |huffval| && sizes[p] <= 8 && Covers(sizes, p, e * 256)
    ensures Filled(sizes, huffval, sizes[p], huffval[p], e, p + 1)
  {
  }

  /** The lookahead tables. */
  method FillLookTables(bits: seq<nat>, huffval: seq<nat>, huffcode: seq<int>, nbits: array<int>, sym: array<int>)
    requires |bits| == 17 && Fits(Sizes(bits, 16)) && |Sizes(bits, 16)| <= |huffval|
    requires huffcode == Codes(Sizes(bits, 16))
    requires nbits.Length == sym.Length == 256 && nbits != sym
    modifies nbits, sym
    ensures LookTables(Sizes(bits, 16), huffval, nbits[..], sym[..])
    ensures forall b :: 0 <= b < 256 ==> nbits[b] >= 0
  {
    hide Start, Pow2, Code;
    ghost var sizes := Sizes(bits, 16);
    var i := 0;
    while i < 256
      invariant 0 <= i <= 256 && forall b :: 0 <= b < i ==> nbits[b] == 0
    {
      nbits[i] := 0;
      i := i + 1;
    }
    var p, l := 0, 1;
    ghost var e := 0;
    assert Start(sizes, 0) == 0 by { StartZero(sizes); }
    while l <= 8
      invariant 1 <= l <= 9 && p == First(bits, l) && p <= |sizes| && Start(sizes, p) == e * 256
      invariant LookFilled(sizes, huffval, nbits[..], sym[..], p, e)
    {
      SizesBlock(bits, l, 16);
      i := 1;
      while i <= bits[l]
        invariant 1 <= i <= bits[l] + 1 && p == First(bits, l) + i - 1 && Start(sizes, p) == e * 256
        invariant LookFilled(sizes, huffval, nbits[..], sym[..], p, e)
      {
        ShortCode(sizes, p);
        FillPatterns(sizes, huffval, huffcode[p], p, l, nbits, sym);
        e := (huffcode[p] + 1) * Pow2(8 - l);
        i := i + 1;
        p := p + 1;
      }
      FirstSum(bits, l);
      l := l + 1;
    }
    SizesBelow(bits, 8);
    SizesTail(bits, 8, 16);
    LookDone(sizes, huffval, nbits[..], sym[..], p, e);
  }

  lemma {:induction false} SizesTail(bits: seq<nat>, l: nat, m: nat)
    requires l <= m < |bits|
    ensures |Sizes(bits, l)| <= |Sizes(bits, m)| && Sizes(bits, m)[..|Sizes(bits, l)|] == Sizes(bits, l)
    ensures forall p :: |Sizes(bits, l)| <= p < |Sizes(bits, m)| ==> Sizes(bits, m)[p] > l
  {
    if l < m {
      SizesTail(bits, l, m - 1);
      assert Sizes(bits, m)[..|Sizes(bits, l)|] == Sizes(bits, m - 1)[..|Sizes(bits, l)|];
    }
  }

  lemma LookDone(sizes: seq<nat>, huffval: seq<nat>, nbits: seq<int>, sym: seq<int>, n: nat, e: int)
    requires |nbits| == |sym| == 256 && n <= |sizes| <= |huffval| && Ascending(sizes)
    requires LookFilled(sizes, huffval, nbits, sym, n, e) && Start(sizes, n) == e * 256
    requires forall p :: n <= p < |sizes| ==> sizes[p] > 8
    ensures LookTables(sizes, huffval, nbits, sym)
    ensures forall b :: 0 <= b < 256 ==> nbits[b] >= 0
  {
    hide Start, Pow2;
    forall b | 0 <= b < 256 ensures LookEntry(sizes, huffval, nbits, sym, b) && nbits[b] >= 0 {
      if b >= e {
        forall p | 0 <= p < |sizes| && sizes[p] <= 8 ensures Start(sizes, p + 1) <= b * 256 {
          StartMonotonic(sizes, p + 1, n);
        }
      }
    }
  }

  /** What jpeg_make_d_derived_tbl accepts; unlike the encoder it does not mind duplicates. */
  ghost predicate DecodesWith(t: Table, isDC: bool)
    requires IsTable(t)
  {
    && Fits(Lengths(t))
    && (isDC ==> forall p :: 0 <= p < |Lengths(t)| ==> t.huffval[p] <= 15)
  }

  /** A decoder, too, refuses a DC table with a size above 15, and only for that. */
  lemma LargestSymbolRead(s: nat, isDC: bool)
    requires s <= 255
    ensures var t := Table(seq(17, l => if l == 1 then 1 else 0), seq(256, _ => s));
      IsTable(t) && (DecodesWith(t, isDC) <==> s <= 15 || !isDC)
  {
    hide Fits;
    var t := Table(seq(17, l => if l == 1 then 1 else 0), seq(256, _ => s));
    OneSize(t.bits, 16);
    OneFits();
    assert t.huffval[0] == s;
  }

  /** jpeg_make_d_derived_tbl. */
  method MakeDecodingTable(t: Table, isDC: bool, maxcode: array<int>, valoffset: array<int>, nbits: array<int>,
                           sym: array<int>)
    returns (ok: bool)
    requires IsTable(t) && maxcode.Length == 18 && valoffset.Length == 17 && nbits.Length == sym.Length == 256
    requires maxcode != valoffset && nbits != sym && maxcode != nbits && maxcode != sym && valoffset != nbits
    requires valoffset != sym
    modifies maxcode, valoffset, nbits, sym
    ensures ok <==> DecodesWith(t, isDC)
    ensures ok ==>
        SerialTables(t.bits, maxcode[..], valoffset[..]) && LookTables(Lengths(t), t.huffval, nbits[..], sym[..])
    ensures ok ==> forall b :: 0 <= b < 256 ==> nbits[b] >= 0
  {
    hide Start, Pow2, Code, LookTables, SerialTables;
    SizesAscend(t.bits, 16);
    var fine, huffsize := ListSizes(t.bits);
    if !fine {
      return false;
    }
    var huffcode: seq<int>;
    fine, huffcode := AssignCodes(huffsize);
    if !fine {
      return false;
    }
    assert huffcode == Codes(huffsize);
    FillSerialTables(t.bits, huffcode, maxcode, valoffset);
    FillLookTables(t.bits, t.huffval, huffcode, nbits, sym);
    if isDC {
      var i := 0;
      while i < |huffsize|
        invariant 0 <= i <= |huffsize| && forall p :: 0 <= p < i ==> t.huffval[p] <= 15
      {
        if t.huffval[i] > 15 {
          return false;
        }
        i := i + 1;
      }
    }
    ok := true;
  }
}
