/** Generated tables are usable: whatever the counts, the table built by the generator is
    accepted by the encoder's table builder, and every counted symbol gets a code. */
module GeneratedTables {
  import opened Numbers
  import opened HuffmanTree
  import opened CodeLengths
  import opened SymbolLists
  import opened HuffmanGenerator
  import opened HuffmanCodes

  lemma {:induction false} StartPrefix(s: seq<nat>, t: seq<nat>, p: nat)
    requires p <= |s|
    ensures Start(s + t, p) == Start(s, p)
  {
    if p > 0 {
      StartPrefix(s, t, p - 1);
    }
  }

  lemma {:induction false} StartRun(s: seq<nat>, l: nat, n: nat)
    requires l <= 16
    ensures Start(s + seq(n, _ => l), |s| + n) == Start(s, |s|) + n * Pow2(16 - l)
  {
    hide Pow2;
    if n == 0 {
      assert s + seq(n, _ => l) == s;
    } else {
      StartRun(s, l, n - 1);
      var whole := s + seq(n, _ => l);
      assert whole == (s + seq(n - 1, _ => l)) + [l];
      StartPrefix(s + seq(n - 1, _ => l), [l], |s| + n - 1);
      Distribute(n - 1, 1, Pow2(16 - l));
    }
  }

  /** The windows a table's codes cover are its Kraft sum. */
  lemma {:induction false} StartIsKraft(bits: seq<nat>, l: nat)
    requires |bits| == 17 && bits[0] == 0 && l <= 16
    ensures Start(Sizes(bits, l), |Sizes(bits, l)|) == Sum(KraftTerms(bits, 16)[..l + 1])
    ensures |Sizes(bits, l)| == Sum(bits[..l + 1])
  {
    hide Pow2, Sum;
    var t := KraftTerms(bits, 16);
    SumTake(t, l);
    SumTake(bits, l);
    if l == 0 {
      assert t[0] == 0;
      SumZero(t[..0]);
      SumZero(bits[..0]);
    } else {
      StartIsKraft(bits, l - 1);
      StartRun(Sizes(bits, l - 1), l, bits[l]);
    }
  }

  /** Without limiting, the table's lengths are the symbols' own code sizes. */
  lemma {:induction false} LengthsAreSizes(size: seq<nat>, bits: seq<nat>, l: nat)
    requires |bits| == 17 && bits == Histogram(size)[..17] && l <= 16
    ensures |Sizes(bits, l)| == |Listing(size, l)|
    ensures forall p :: 0 <= p < |Sizes(bits, l)| ==>
      Listing(size, l)[p] < |size| && Sizes(bits, l)[p] == size[Listing(size, l)[p]]
  {
    ListingIs(size, l);
    if l > 0 {
      LengthsAreSizes(size, bits, l - 1);
      OfLengthIs(size, l, |size|);
      assert size[..|size|] == size;
    }
  }

  lemma {:induction false} ListingStops(size: seq<nat>, l: nat, m: nat)
    requires l <= m && forall s :: 0 <= s < |size| ==> size[s] <= l
    ensures Listing(size, m) == Listing(size, l)
  {
    if l < m {
      ListingStops(size, l, m - 1);
      OfLengthIs(size, m, |size|);
      assert OfLength(size, m, |size|) == [];
    }
  }

  /** The table as stored: the symbol list occupies the front of huffval[]. */
  ghost predicate Stored(t: Table, bits: seq<nat>, huffval: seq<nat>) {
    IsTable(t) && t.bits == bits && |huffval| <= 256 && t.huffval[..|huffval|] == huffval
  }

  /** Every generated table is accepted, and gives every counted symbol a code. */
  lemma GeneratedIsUsable(count: seq<nat>, size: seq<nat>, bits: seq<nat>, huffval: seq<nat>, t: Table)
    requires Generated(count, size, bits, huffval) && Stored(t, bits, huffval)
    requires forall i :: 0 <= i < 257 ==> size[i] <= MAX_CLEN
    ensures EncodesWith(t, false)
    ensures |Lengths(t)| == |huffval|
    ensures forall s :: 0 <= s < 256 ==> (count[s] > 0 <==> s in t.huffval[..|Lengths(t)|])
  {
    hide Sum, Pow2, Optimal, Start, Histogram, Listing;
    StartIsKraft(bits, 16);
    assert KraftTerms(bits, 16)[..17] == KraftTerms(bits, 16) && bits[..17] == bits;
    SizesAscend(bits, 16);
    ListingIs(size[..256], MAX_CLEN);
    forall p, q | 0 <= p < q < |huffval| ensures t.huffval[p] != t.huffval[q] {
      assert t.huffval[p] == huffval[p] && t.huffval[q] == huffval[q];
    }
  }

  /** When no code had to be shortened, the table realizes the optimal lengths exactly. */
  lemma GeneratedIsOptimal(count: seq<nat>, size: seq<nat>, bits: seq<nat>, huffval: seq<nat>, t: Table)
    requires Generated(count, size, bits, huffval) && Stored(t, bits, huffval)
    requires forall i :: 0 <= i < 257 ==> size[i] <= 16
    ensures |Lengths(t)| == |huffval|
    ensures forall p :: 0 <= p < |huffval| ==> t.huffval[p] < 256 && Lengths(t)[p] == size[t.huffval[p]]
    ensures forall len, m :: |len| == 257 && Kraft(count, len, m) ==> Cost(count, size) <= Cost(count, len)
  {
    hide Sum, Pow2, Start, Histogram, Listing, Sizes, Kraft, Cost;
    ListingStops(size[..256], 16, MAX_CLEN);
    LengthsAreSizes(size[..256], bits, 16);
    forall p | 0 <= p < |huffval| ensures t.huffval[p] < 256 && Lengths(t)[p] == size[t.huffval[p]] {
      assert t.huffval[p] == huffval[p];
    }
  }
}
