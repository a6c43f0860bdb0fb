/** Two-pass coding: the tables built from the counts of a statistics pass give every token of
    the output pass a code. */
module TwoPass {
  import opened Numbers
  import opened HuffmanTree
  import opened CodeLengths
  import opened SymbolLists
  import opened HuffmanGenerator
  import opened HuffmanCodes
  import opened GeneratedTables
  import opened HuffmanDecoding
  import opened BitReader
  import opened Tokens

  /** What a statistics pass hands to the table generator. */
  ghost function Counts(ks: seq<Token>): (r: seq<nat>)
    ensures |r| == 256 && forall s :: 0 <= s < 256 ==> r[s] == Count(ks, s)
  {
    seq(256, s requires 0 <= s < 256 => Count(ks, s))
  }

  /** Three symbols that never occur leave room for the pseudo-symbol in the byte counts. */
  ghost predicate Sparse(ks: seq<Token>) {
    forall i :: 0 <= i < |ks| && ks[i].Sym? ==> ks[i].s < 256 && ks[i].s % 16 != 15
  }

  ghost predicate HasSymbol(ks: seq<Token>) {
    exists i :: 0 <= i < |ks| && ks[i].Sym?
  }

  lemma {:induction false} CountAbsent(ks: seq<Token>, s: nat)
    requires forall i :: 0 <= i < |ks| ==> ks[i] != Sym(s)
    ensures Count(ks, s) == 0
  {
    if |ks| > 0 {
      CountAbsent(ks[..|ks| - 1], s);
    }
  }

  lemma FewLive(freq: seq<nat>)
    requires |freq| == 257 && freq[15] == freq[31] == freq[256] == 0
    ensures Live(freq) <= 254
  {
    hide Sum;
    var ones := seq(257, _ => 1);
    SumOnes(257);
    SumUpdate(ones, 15, 0);
    SumUpdate(ones[15 := 0], 31, 0);
    SumUpdate(ones[15 := 0][31 := 0], 256, 0);
    SumLe(LiveTerms(freq), ones[15 := 0][31 := 0][256 := 0]);
  }

  lemma {:induction false} EachAtMost(s: seq<nat>, l: nat)
    requires l < |s|
    ensures s[l] <= Sum(s)
  {
    SumMember(s, l);
  }

  /** jpeg_gen_optimal_table fills in the front of the stored table. */
  method Store(bits: seq<nat>, huffval: seq<nat>, ghost count: seq<nat>, ghost size: seq<nat>) returns (t: Table)
    requires Generated(count, size, bits, huffval) && |huffval| <= 254
    ensures Stored(t, bits, huffval) && |t.huffval| == 256
  {
    hide Sum, Listing, Optimal, KraftBits, Pow2, Histogram;
    t := Table(bits, huffval + seq(256 - |huffval|, _ => 0));
    forall l | 0 <= l <= 16 ensures bits[l] <= 255 {
      EachAtMost(bits, l);
    }
    ListingIs(size[..256], MAX_CLEN);
    forall p | 0 <= p < 256 ensures t.huffval[p] <= 255 {
    }
  }

  lemma {:induction false} DCRange(huffval: seq<nat>, n: nat, ks: seq<Token>, count: seq<nat>)
    requires n <= |huffval| && |count| == 257 && count[..256] == Counts(ks)
    requires forall s :: 0 <= s < 256 ==> (count[s] > 0 <==> s in huffval[..n])
    requires (forall p :: 0 <= p < n ==> huffval[p] < 256) && forall s :: 16 <= s < 256 ==> Count(ks, s) == 0
    ensures forall p :: 0 <= p < n ==> huffval[p] <= 15
  {
    forall p | 0 <= p < n ensures huffval[p] <= 15 {
      var s := huffval[p];
      assert huffval[..n][p] == s;
      assert count[s] == count[..256][s] == Count(ks, s);
    }
  }

  /** From counts to tables. It fails only if some optimal code is longer than 32 bits. */
  method TablesFor(freq: array<nat>, isDC: bool, ghost ks: seq<Token>)
    returns (ok: bool, t: Table, c: CTable, d: DTable, ghost size: seq<nat>)
    requires freq.Length == 257 && freq[..256] == Counts(ks) && Sum(freq[..256]) <= LIMIT
    requires Sparse(ks) && HasSymbol(ks) && (isDC ==> forall s :: 16 <= s < 256 ==> Count(ks, s) == 0)
    modifies freq
    ensures |size| == 257 && Optimal(Counts(ks) + [1], size)
    ensures ok <==> forall i :: 0 <= i < 257 ==> size[i] <= MAX_CLEN
    ensures ok ==> Matched(t, c, d) && Coded(c, ks) && EncodesWith(t, isDC)
  {
    hide Sum, Pow2, Optimal, Histogram, Live, Listing, KraftBits, Start, Code, BySymbol, SerialTables, LookTables;
    hide Fits, Codes, Sizes;
    ghost var i: nat :| i < |ks| && ks[i].Sym?;
    CountPositive(ks, i);
    CountAbsent(ks, 15);
    CountAbsent(ks, 31);
    FewLive(freq[..][256 := 0]);
    assert freq[ks[i].s] == freq[..256][ks[i].s] > 0;
    ghost var freq0 := freq[..];
    ghost var count := freq[..][256 := 1];
    assert count == freq[..256] + [1];
    var bits, huffval;
    ok, bits, huffval, size := GenOptimalTable(freq);
    t, c, d := Table([], []), CTable([], []), DTable([], [], [], [], []);
    if !ok {
      return;
    }
    t := Store(bits, huffval, count, size);
    GeneratedIsUsable(count, size, bits, huffval, t);
    var co, si := new int[256], new int[256];
    var maxcode, valoffset, nbits, sym := new int[18], new int[17], new int[256], new int[256];
    assert count[..256] == freq0[..256];
    if isDC {
      DCRange(t.huffval, |Lengths(t)|, ks, count);
    }
    var fine := MakeEncodingTable(t, isDC, co, si);
    fine := MakeDecodingTable(t, isDC, maxcode, valoffset, nbits, sym);
    c, d := CTable(co[..], si[..]), DTable(maxcode[..], valoffset[..], t.huffval, nbits[..], sym[..]);
    SizesAscend(t.bits, 16);
    CTableIs(t, c);
    CountedAreCoded(ks, t, c, count);
    TablesAgree(t, c, d);
  }

  lemma TablesAgree(t: Table, c: CTable, d: DTable)
    requires IsTable(t) && IsCTable(c) && |Lengths(t)| <= 256 && Ascending(Lengths(t)) && Fits(Lengths(t))
    requires BySymbol(t.huffval, Lengths(t), Codes(Lengths(t)), c.co, c.si, |Lengths(t)|)
    requires |d.maxcode| == 18 && |d.valoffset| == 17 && |d.nbits| == |d.sym| == 256 && d.huffval == t.huffval
    requires SerialTables(t.bits, d.maxcode, d.valoffset) && LookTables(Lengths(t), t.huffval, d.nbits, d.sym)
    requires forall b :: 0 <= b < 256 ==> d.nbits[b] >= 0
    ensures Matched(t, c, d)
  {
    hide Lengths, Codes, LookTables, Fits, BySymbol;
  }

  lemma CTableIs(t: Table, c: CTable)
    requires IsTable(t) && Ascending(Lengths(t)) && |Lengths(t)| <= 256 && |c.co| == |c.si| == 256
    requires BySymbol(t.huffval, Lengths(t), Codes(Lengths(t)), c.co, c.si, |Lengths(t)|)
    ensures IsCTable(c)
  {
    hide Lengths, Codes;
    forall s | 0 <= s < 256 ensures 0 <= c.si[s] <= 16 {
      if s in t.huffval[..|Lengths(t)|] {
        var p :| 0 <= p < |Lengths(t)| && t.huffval[p] == s;
      }
    }
  }

  lemma CountedAreCoded(ks: seq<Token>, t: Table, c: CTable, count: seq<nat>)
    requires IsTable(t) && IsCTable(c) && |count| == 257 && Sparse(ks) && count[..256] == Counts(ks)
    requires |Lengths(t)| <= 256 && Ascending(Lengths(t))
    requires BySymbol(t.huffval, Lengths(t), Codes(Lengths(t)), c.co, c.si, |Lengths(t)|)
    requires forall s :: 0 <= s < 256 ==> (count[s] > 0 <==> s in t.huffval[..|Lengths(t)|])
    ensures Coded(c, ks)
  {
    hide Lengths, Codes;
    forall i | 0 <= i < |ks| && ks[i].Sym? ensures c.si[ks[i].s] > 0 {
      CountPositive(ks, i);
      var s := ks[i].s;
      assert count[s] == count[..256][s] == Count(ks, s);
    }
  }

  /** A statistics pass needs no table. */
  method NoTable() returns (c: CTable)
    ensures IsCTable(c)
  {
    c := CTable(seq(256, _ => 0), seq(256, _ => 0));
  }
}
