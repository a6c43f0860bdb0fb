/** Canonical Huffman codes (Annex C of ITU-T T.81). A code of length s and value c covers the
    16-bit windows [c << (16 - s), (c + 1) << (16 - s)); the canonical codes cover consecutive
    stretches. */
module HuffmanCodes {
  import opened Numbers

  /** bits[l] codes of length l (bits[0] unused); symbols in order of code length. */
  datatype Table = Table(bits: seq<nat>, huffval: seq<nat>)

  ghost predicate IsTable(t: Table) {
    && |t.bits| == 17 && (forall l :: 0 <= l <= 16 ==> t.bits[l] <= 255)
    && |t.huffval| == 256 && (forall p :: 0 <= p < 256 ==> t.huffval[p] <= 255)
  }

  /** Figure C.1: the code lengths in order. */
  function Sizes(bits: seq<nat>, l: nat): seq<nat>
    requires l < |bits|
  {
    if l == 0 then [] else Sizes(bits, l - 1) + seq(bits[l], _ => l)
  }

  ghost predicate Ascending(sizes: seq<nat>) {
    (forall p :: 0 <= p < |sizes| ==> 1 <= sizes[p] <= 16) &&
    (forall p, q :: 0 <= p <= q < |sizes| ==> sizes[p] <= sizes[q])
  }

  /** The first window of entry p, and the end of the last one. */
  ghost function Start(sizes: seq<nat>, p: nat): (r: nat)
    requires p <= |sizes|
  {
    if p == 0 then 0
    else Start(sizes, p - 1) + if sizes[p - 1] <= 16 then Pow2(16 - sizes[p - 1]) else 0
  }

  /** The code of entry p. */
  ghost function Code(sizes: seq<nat>, p: nat): int
    requires p < |sizes| && sizes[p] <= 16
  {
    Start(sizes, p) / Pow2(16 - sizes[p])
  }

  lemma {:induction false} StartMonotonic(sizes: seq<nat>, p: nat, q: nat)
    requires Ascending(sizes) && p <= q <= |sizes|
    ensures Start(sizes, p) + (q - p) <= Start(sizes, q)
  {
    if p < q {
      StartMonotonic(sizes, p, q - 1);
    }
  }

  /** Starts are aligned: every earlier code is at most as long. */
  lemma {:induction false} StartAligned(sizes: seq<nat>, p: nat, s: nat) returns (k: nat)
    requires Ascending(sizes) && p <= |sizes| && s <= 16 && (p > 0 ==> sizes[p - 1] <= s)
    ensures Start(sizes, p) == k * Pow2(16 - s)
  {
    hide Pow2;
    if p == 0 {
      k := 0;
    } else {
      var j := StartAligned(sizes, p - 1, s);
      Pow2Add(s - sizes[p - 1], 16 - s);
      k := j + Pow2(s - sizes[p - 1]);
      Distribute(j, Pow2(s - sizes[p - 1]), Pow2(16 - s));
    }
  }

  lemma DivExact(k: nat, u: nat)
    requires u > 0
    ensures k * u / u == k
  {
    DivUnique(k * u, u, k);
  }

  lemma DivUnique(x: int, u: int, k: int)
    requires u > 0 && k * u <= x < (k + 1) * u
    ensures x / u == k
  {
    var q := x / u;
    assert q * u <= x < q * u + u;
    if q < k { MulLe(q + 1, k, u); } else if q > k { MulLe(k + 1, q, u); }
  }

  /** Figure C.2 computes this: entry p covers [Code << (16 - s), (Code + 1) << (16 - s)). */
  lemma CodeCovers(sizes: seq<nat>, p: nat)
    requires Ascending(sizes) && p < |sizes|
    ensures Start(sizes, p) == Code(sizes, p) * Pow2(16 - sizes[p])
    ensures Start(sizes, p + 1) == (Code(sizes, p) + 1) * Pow2(16 - sizes[p])
  {
    var u := Pow2(16 - sizes[p]);
    var k := StartAligned(sizes, p, sizes[p]);
    DivExact(k, u);
  }

  /** Codes count up within a length, and go on one bit longer from where the shorter ones stopped. */
  lemma CodesSucceed(sizes: seq<nat>, p: nat)
    requires Ascending(sizes) && p < |sizes|
    ensures p == 0 ==> Code(sizes, p) == 0
    ensures p + 1 < |sizes| ==>
      sizes[p] <= sizes[p + 1] && Code(sizes, p + 1) == (Code(sizes, p) + 1) * Pow2(sizes[p + 1] - sizes[p])
  {
    hide Start, Code;
    if p == 0 {
      FirstCode(sizes);
    }
    if p + 1 < |sizes| {
      var d, u := Pow2(sizes[p + 1] - sizes[p]), Pow2(16 - sizes[p + 1]);
      CodeCovers(sizes, p);
      CodeCovers(sizes, p + 1);
      Pow2Add(sizes[p + 1] - sizes[p], 16 - sizes[p + 1]);
      MulAssoc(Code(sizes, p) + 1, d, u);
      CancelUnit(Code(sizes, p + 1), (Code(sizes, p) + 1) * d, u);
    }
  }

  lemma FirstCode(sizes: seq<nat>)
    requires Ascending(sizes) && |sizes| > 0
    ensures Code(sizes, 0) == 0
  {
    hide Pow2;
    DivExact(0, Pow2(16 - sizes[0]));
  }

  lemma CancelUnit(x: int, y: int, u: int)
    requires u > 0 && x * u == y * u
    ensures x == y
  {
    if x < y { MulLt(x, y, u); } else if y < x { MulLt(y, x, u); }
  }

  /** A table is usable when its codes fit: the windows end before the last one, so no code
      is all ones. */
  ghost predicate Fits(sizes: seq<nat>) {
    Ascending(sizes) && |sizes| <= 256 && Start(sizes, |sizes|) < Pow2(16)
  }

  /** No code consists of ones only, and each fits its length. */
  lemma NotAllOnes(sizes: seq<nat>, p: nat)
    requires Fits(sizes) && p < |sizes|
    ensures Code(sizes, p) < Pow2(sizes[p]) - 1
  {
    hide Start, Code;
    StartMonotonic(sizes, p + 1, |sizes|);
    CodeCovers(sizes, p);
    Pow2Add(sizes[p], 16 - sizes[p]);
    if Code(sizes, p) + 1 >= Pow2(sizes[p]) {
      MulLe(Pow2(sizes[p]), Code(sizes, p) + 1, Pow2(16 - sizes[p]));
    }
  }

  /** Windows of a quotient: the first bits of code c, as a code of their own, cover c's window. */
  lemma QuotientCovers(c: int, d: int, u: int, w: int)
    requires d > 0 && u > 0 && w == d * u
    ensures (c / d) * w <= c * u && (c + 1) * u <= (c / d + 1) * w
  {
    var k := c / d;
    assert k * d <= c < k * d + d;
    Distribute(k, 1, d);
    MulLe(k * d, c, u);
    MulLe(c + 1, (k + 1) * d, u);
    MulAssoc(k, d, u);
    MulAssoc(k + 1, d, u);
  }

  /** No code is a prefix of another: the first `sizes[p]` bits of the code of q differ from
      the code of p. */
  lemma PrefixFree(sizes: seq<nat>, p: nat, q: nat)
    requires Fits(sizes) && p < |sizes| && q < |sizes| && p != q && sizes[p] <= sizes[q]
    ensures Code(sizes, q) / Pow2(sizes[q] - sizes[p]) != Code(sizes, p)
  {
    hide Start, Code, Pow2;
    var u, d, w := Pow2(16 - sizes[q]), Pow2(sizes[q] - sizes[p]), Pow2(16 - sizes[p]);
    CodeCovers(sizes, p);
    CodeCovers(sizes, q);
    Pow2Add(sizes[q] - sizes[p], 16 - sizes[q]);
    QuotientCovers(Code(sizes, q), d, u, w);
    var k := Code(sizes, q) / d;
    assert k * w <= Start(sizes, q) && Start(sizes, q + 1) <= (k + 1) * w;
    assert k == Code(sizes, p) ==> Start(sizes, p) == k * w && Start(sizes, p + 1) == (k + 1) * w;
    assert Start(sizes, q) < Start(sizes, q + 1) && Start(sizes, p) < Start(sizes, p + 1) by {
      StartMonotonic(sizes, q, q + 1);
      StartMonotonic(sizes, p, p + 1);
    }
    if p < q {
      StartMonotonic(sizes, p + 1, q);
    } else {
      StartMonotonic(sizes, q + 1, p);
    }
  }

  lemma {:induction false} SizesAscend(bits: seq<nat>, l: nat)
    requires l < |bits| && l <= 16
    ensures var s := Sizes(bits, l); Ascending(s) && forall p :: 0 <= p < |s| ==> s[p] <= l
  {
    if l > 0 {
      SizesAscend(bits, l - 1);
    }
  }

  // Building the tables ----------------------------------------------------------------

  lemma {:induction false} SizesPrefix(bits: seq<nat>, l: nat, m: nat)
    requires l <= m < |bits|
    ensures |Sizes(bits, l)| <= |Sizes(bits, m)|
  {
    if l < m {
      SizesPrefix(bits, l, m - 1);
    }
  }

  /** Figure C.1, guarding against more than 256 symbols. */
  method ListSizes(bits: seq<nat>) returns (ok: bool, huffsize: seq<nat>)
    requires |bits| == 17
    ensures ok <==> |Sizes(bits, 16)| <= 256
    ensures ok ==> huffsize == Sizes(bits, 16)
  {
    huffsize := [];
    var l := 1;
    while l <= 16
      invariant 1 <= l <= 17 && huffsize == Sizes(bits, l - 1) && |huffsize| <= 256
    {
      var i := bits[l];
      if |huffsize| + i > 256 {
        SizesPrefix(bits, l, 16);
        return false, huffsize;
      }
      while i > 0
        invariant 0 <= i <= bits[l] && huffsize == Sizes(bits, l - 1) + seq(bits[l] - i, _ => l)
      {
        huffsize := huffsize + [l];
        i := i - 1;
      }
      l := l + 1;
    }
    ok := true;
  }

  lemma RunOfCodes(sizes: seq<nat>, p: nat, si: nat, code: int)
    requires Ascending(sizes) && p < |sizes| && sizes[p] == si && code * Pow2(16 - si) == Start(sizes, p)
    ensures code == Code(sizes, p) && (code + 1) * Pow2(16 - si) == Start(sizes, p + 1)
  {
    hide Start, Pow2;
    DivExact(code, Pow2(16 - si));
    Distribute(code, 1, Pow2(16 - si));
    CodeCovers(sizes, p);
  }

  lemma FitsInBits(code: int, si: nat)
    requires 1 <= si <= 16
    ensures code >= Pow2(si) <==> code * Pow2(16 - si) >= Pow2(16)
  {
    hide Pow2;
    Pow2Add(si, 16 - si);
    if code >= Pow2(si) {
      MulLe(Pow2(si), code, Pow2(16 - si));
    } else {
      MulLt(code, Pow2(si), Pow2(16 - si));
    }
  }

  lemma NextLength(code: int, si: nat)
    requires si < 16
    ensures 2 * code * Pow2(16 - (si + 1)) == code * Pow2(16 - si)
  {
    assert Pow2(16 - si) == 2 * Pow2(16 - (si + 1));
    MulAssoc(code, 2, Pow2(16 - (si + 1)));
  }

  /** Figure C.2: succeeds exactly when the lengths describe a code tree with the all-ones
      code unused. */
  method AssignCodes(huffsize: seq<nat>) returns (ok: bool, huffcode: seq<int>)
    requires Ascending(huffsize) && |huffsize| <= 256
    ensures ok <==> Fits(huffsize)
    ensures ok ==> |huffcode| == |huffsize| && forall p :: 0 <= p < |huffsize| ==> huffcode[p] == Code(huffsize, p)
  {
    hide Start, Pow2, Code;
    huffcode := [];
    if |huffsize| == 0 {
      EmptyFits(huffsize);
      return true, huffcode;
    }
    StartZero(huffsize);
    var code, p, si := 0, 0, huffsize[0];
    while p < |huffsize|
      invariant 0 <= p == |huffcode| <= |huffsize| && 1 <= si <= 17
      invariant p < |huffsize| ==> si <= huffsize[p] && code * Pow2(16 - si) == Start(huffsize, p)
      invariant forall q :: 0 <= q < p ==> huffsize[q] < si && huffcode[q] == Code(huffsize, q)
      invariant Start(huffsize, p) < Pow2(16)
      decreases |huffsize| - p, 17 - si
    {
      while p < |huffsize| && huffsize[p] == si
        invariant 0 <= p == |huffcode| <= |huffsize| && si <= 16 && code * Pow2(16 - si) == Start(huffsize, p)
        invariant p < |huffsize| ==> si <= huffsize[p]
        invariant forall q :: 0 <= q < p ==> huffsize[q] <= si && huffcode[q] == Code(huffsize, q)
        decreases |huffsize| - p
      {
        RunOfCodes(huffsize, p, si, code);
        huffcode := huffcode + [code];
        p := p + 1;
        code := code + 1;
      }
      FitsInBits(code, si);
      if code >= Pow2(si) {
        StartMonotonic(huffsize, p, |huffsize|);
        return false, huffcode;
      }
      if si < 16 {
        NextLength(code, si);
      }
      code := code * 2;
      si := si + 1;
    }
    ok := true;
  }

  lemma StartZero(sizes: seq<nat>)
    ensures Start(sizes, 0) == 0 < Pow2(16)
  {
  }

  lemma EmptyFits(sizes: seq<nat>)
    requires sizes == []
    ensures Fits(sizes)
  {
  }

  /** The code lengths of a table. */
  function Lengths(t: Table): seq<nat>
    requires |t.bits| == 17
  {
    Sizes(t.bits, 16)
  }

  /** What jpeg_make_c_derived_tbl accepts: codes that fit, and distinct symbols in range. */
  ghost predicate EncodesWith(t: Table, isDC: bool)
    requires IsTable(t)
  {
    var n := |Lengths(t)|;
    && Fits(Lengths(t))
    && (forall p :: 0 <= p < n ==> t.huffval[p] <= if isDC then 15 else 255)
    && (forall p, q :: 0 <= p < q < n ==> t.huffval[p] != t.huffval[q])
  }

  /** Code and size by symbol; size 0 marks symbols without a code. */
  /** A table with a single symbol may hold any byte, but a DC table no size above 15. */
  lemma LargestSymbol(s: nat, isDC: bool)
    requires s <= 255
    ensures var t := Table(seq(17, l => if l == 1 then 1 else 0), seq(256, _ => s));
      IsTable(t) && (EncodesWith(t, isDC) <==> s <= 15 || !isDC)
  {
    var t := Table(seq(17, l => if l == 1 then 1 else 0), seq(256, _ => s));
    hide Sizes, Fits;
    OneSize(t.bits, 16);
    OneFits();
    assert t.huffval[0] == s;
  }

  lemma OneFits()
    ensures Fits([1])
  {
    assert Start([1], 0) == 0 && Start([1], 1) == Pow2(15);
    assert Pow2(16) == 2 * Pow2(15);
  }

  lemma {:induction false} OneSize(bits: seq<nat>, l: nat)
    requires 1 <= l < |bits| && forall i :: 0 < i < |bits| ==> bits[i] == if i == 1 then 1 else 0
    ensures Sizes(bits, l) == [1]
  {
    if l > 1 {
      OneSize(bits, l - 1);
    } else {
      assert Sizes(bits, 0) == [];
    }
  }

  ghost predicate BySymbol(huffval: seq<nat>, sizes: seq<nat>, codes: seq<int>, co: seq<int>, si: seq<int>, n: nat)
    requires n <= |huffval| && n <= |sizes| && n <= |codes| && |co| == |si| == 256
    requires forall p :: 0 <= p < n ==> huffval[p] < 256
  {
    && (forall p :: 0 <= p < n ==> co[huffval[p]] == codes[p] && si[huffval[p]] == sizes[p])
    && (forall s :: 0 <= s < 256 && s !in huffval[..n] ==> si[s] == 0)
  }

  /** Figure C.3. */
  method FillBySymbol(huffval: seq<nat>, huffsize: seq<nat>, huffcode: seq<int>, maxsymbol: nat, ehufco: array<int>,
                      ehufsi: array<int>)
    returns (ok: bool)
    requires ehufco.Length == ehufsi.Length == 256 && ehufco != ehufsi && maxsymbol < 256
    requires |huffsize| == |huffcode| <= |huffval| && forall p :: 0 <= p < |huffsize| ==> huffsize[p] > 0
    modifies ehufco, ehufsi
    ensures ok <==> (forall p :: 0 <= p < |huffsize| ==> huffval[p] <= maxsymbol) &&
                    (forall p, q :: 0 <= p < q < |huffsize| ==> huffval[p] != huffval[q])
    ensures ok ==> BySymbol(huffval, huffsize, huffcode, ehufco[..], ehufsi[..], |huffsize|)
  {
    var i := 0;
    while i < 256
      invariant 0 <= i <= 256 && forall s :: 0 <= s < i ==> ehufsi[s] == 0
    {
      ehufsi[i] := 0;
      i := i + 1;
    }
    var p := 0;
    while p < |huffsize|
      invariant 0 <= p <= |huffsize|
      invariant forall q :: 0 <= q < p ==> huffval[q] <= maxsymbol
      invariant forall q, r :: 0 <= q < r < p ==> huffval[q] != huffval[r]
      invariant BySymbol(huffval, huffsize, huffcode, ehufco[..], ehufsi[..], p)
    {
      i := huffval[p];
      if i > maxsymbol || ehufsi[i] != 0 {
        return false;
      }
      ghost var co, si := ehufco[..], ehufsi[..];
      ehufco[i] := huffcode[p];
      ehufsi[i] := huffsize[p];
      AddSymbol(huffval, huffsize, huffcode, co, si, p);
      assert ehufco[..] == co[i := huffcode[p]] && ehufsi[..] == si[i := huffsize[p]];
      p := p + 1;
    }
    ok := true;
  }

  lemma AddSymbol(huffval: seq<nat>, sizes: seq<nat>, codes: seq<int>, co: seq<int>, si: seq<int>, p: nat)
    requires p < |huffval| && p < |sizes| && p < |codes| && |co| == |si| == 256 && huffval[p] < 256
    requires forall q :: 0 <= q < p ==> huffval[q] < 256 && sizes[q] > 0
    requires BySymbol(huffval, sizes, codes, co, si, p) && si[huffval[p]] == 0
    ensures BySymbol(huffval, sizes, codes, co[huffval[p] := codes[p]], si[huffval[p] := sizes[p]], p + 1)
    ensures forall q :: 0 <= q < p ==> huffval[q] != huffval[p]
  {
    assert huffval[..p + 1] == huffval[..p] + [huffval[p]];
  }

  ghost function Codes(sizes: seq<nat>): (r: seq<int>)
    requires Ascending(sizes)
    ensures |r| == |sizes|
  {
    seq(|sizes|, p requires 0 <= p < |sizes| => Code(sizes, p))
  }

  /** jpeg_make_c_derived_tbl. */
  method MakeEncodingTable(t: Table, isDC: bool, ehufco: array<int>, ehufsi: array<int>) returns (ok: bool)
    requires IsTable(t) && ehufco.Length == ehufsi.Length == 256 && ehufco != ehufsi
    modifies ehufco, ehufsi
    ensures ok <==> EncodesWith(t, isDC)
    ensures ok ==> BySymbol(t.huffval, Lengths(t), Codes(Lengths(t)), ehufco[..], ehufsi[..], |Lengths(t)|)
  {
    hide Start, Pow2, Code, BySymbol;
    SizesAscend(t.bits, 16);
    var fine, huffsize := ListSizes(t.bits);
    if !fine {
      return false;
    }
    var huffcode: seq<int>;
    fine, huffcode := AssignCodes(huffsize);
    if !fine {
      return false;
    }
    assert huffcode == Codes(huffsize);
    ok := FillBySymbol(t.huffval, huffsize, huffcode, if isDC then 15 else 255, ehufco, ehufsi);
  }
}
