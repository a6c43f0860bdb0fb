/** jpeg_gen_optimal_table: the tree builder on linked chains in arrays, the length
    limiter, and the symbol list. */
module HuffmanGenerator {
  import opened Numbers
  import opened HuffmanTree
  import opened HuffmanForest
  import opened CodeLengths
  import opened SymbolLists

  // Chains -----------------------------------------------------------------------------

  ghost predicate Distinct(c: seq<nat>) {
    forall i, j :: 0 <= i < j < |c| ==> c[i] != c[j]
  }

  /** `c` is the list of symbols linked from its first element. */
  ghost predicate IsChain(others: seq<int>, c: seq<nat>) {
    && |c| > 0 && Distinct(c) && (forall k :: 0 <= k < |c| ==> c[k] < |others|)
    && (forall k :: 0 <= k < |c| - 1 ==> others[c[k]] == c[k + 1])
    && others[c[|c| - 1]] < 0
  }

  /** Every root heads an acyclic chain of exactly the symbols it owns; chains of different
      roots are disjoint because a symbol has one owner. */
  ghost predicate Chained(others: seq<int>, f: Forest, chains: seq<seq<nat>>) {
    && |others| == |f.freq| == |f.owner| == |chains|
    && forall r :: 0 <= r < |f.freq| && f.freq[r] > 0 ==> ChainOf(others, f.owner, chains[r], r)
  }

  ghost predicate ChainOf(others: seq<int>, owner: seq<int>, c: seq<nat>, r: nat)
    requires |others| == |owner|
  {
    IsChain(others, c) && c[0] == r && forall i :: 0 <= i < |owner| ==> (owner[i] == r <==> i in c)
  }

  lemma Linked(others: seq<int>, owner: seq<int>, a: seq<nat>, c1: nat, b: seq<nat>, c2: nat)
    requires |others| == |owner| && c1 != c2
    requires ChainOf(others, owner, a, c1) && ChainOf(others, owner, b, c2)
    ensures IsChain(others[a[|a| - 1] := c2], a + b)
  {
    forall i | 0 <= i < |a| ensures a[i] !in b {
      assert owner[a[i]] == c1;
    }
    var o, c := others[a[|a| - 1] := c2], a + b;
    forall k | 0 <= k < |c| - 1 ensures o[c[k]] == c[k + 1] {
      if k >= |a| {
        assert b[k - |a|] == c[k];
      }
    }
  }

  lemma MergeKeepsChained(others: seq<int>, f: Forest, chains: seq<seq<nat>>, c1: nat, c2: nat)
    requires Chained(others, f, chains) && |f.size| == |f.freq|
    requires c1 < |f.freq| && c2 < |f.freq| && c1 != c2 && f.freq[c1] > 0 && f.freq[c2] > 0
    ensures var a, b := chains[c1], chains[c2];
      Chained(others[a[|a| - 1] := c2], Merge(f, c1, c2), chains[c1 := a + b])
  {
    var a, b := chains[c1], chains[c2];
    assert ChainOf(others, f.owner, a, c1) && ChainOf(others, f.owner, b, c2);
    Linked(others, f.owner, a, c1, b, c2);
    var o, g, cs := others[a[|a| - 1] := c2], Merge(f, c1, c2), chains[c1 := a + b];
    forall r | 0 <= r < |g.freq| && g.freq[r] > 0 ensures ChainOf(o, g.owner, cs[r], r) {
      assert ChainOf(others, f.owner, chains[r], r);
      if r != c1 {
        OtherChain(others, f.owner, chains[r], r, a, c1, c2);
      }
    }
  }

  lemma OtherChain(others: seq<int>, owner: seq<int>, c: seq<nat>, r: nat, a: seq<nat>, c1: nat, v: int)
    requires |others| == |owner| && r != c1 && ChainOf(others, owner, c, r) && ChainOf(others, owner, a, c1)
    ensures IsChain(others[a[|a| - 1] := v], c)
  {
    var last := a[|a| - 1];
    assert owner[last] == c1;
    assert last !in c;
  }

  lemma InitialChained(count: seq<nat>, others: seq<int>, chains: seq<seq<nat>>)
    requires |others| == |count| == |chains|
    requires forall i :: 0 <= i < |count| ==> others[i] == -1 && chains[i] == [i]
    ensures Chained(others, Initial(count), chains)
  {
  }

  lemma ChainEnds(others: seq<int>, chain: seq<nat>, k: nat)
    requires IsChain(others, chain) && k < |chain|
    ensures others[chain[k]] < 0 <==> k == |chain| - 1
  {
    if k < |chain| - 1 {
      assert others[chain[k]] == chain[k + 1];
    }
  }

  /** Increments the code size of everything in the branch of c; returns the branch's end. */
  method Deepen(codesize: array<nat>, others: array<int>, c: nat, ghost chain: seq<nat>) returns (last: nat)
    requires codesize.Length == others.Length && codesize as object != others as object
    requires IsChain(others[..], chain) && chain[0] == c
    modifies codesize
    ensures last == chain[|chain| - 1]
    ensures forall i :: 0 <= i < codesize.Length ==>
              codesize[i] == old(codesize[i]) + if i in chain then 1 else 0
  {
    last := c;
    ghost var k := 0;
    codesize[last] := codesize[last] + 1;
    while others[last] >= 0
      invariant 0 <= k < |chain| && last == chain[k] && IsChain(others[..], chain)
      invariant forall i :: 0 <= i < codesize.Length ==>
                  codesize[i] == old(codesize[i]) + if i in chain[..k + 1] then 1 else 0
      decreases |chain| - k
    {
      assert others[..][chain[k]] == others[last];
      assert chain[..k + 2] == chain[..k + 1] + [chain[k + 1]];
      last := others[last];
      k := k + 1;
      codesize[last] := codesize[last] + 1;
    }
    ChainEnds(others[..], chain, k);
    assert chain[..k + 1] == chain;
  }

  /** The smallest nonzero count other than that of `skip`. */
  method FindLeast(freq: array<nat>, skip: int) returns (c: int)
    ensures c == Least(freq[..], skip, freq.Length)
  {
    c := -1;
    var v := LIMIT;
    var i := 0;
    while i < freq.Length
      invariant 0 <= i <= freq.Length && c == Least(freq[..], skip, i)
      invariant v == if c < 0 then LIMIT else freq[c]
    {
      if freq[i] != 0 && freq[i] <= v && i != skip {
        v := freq[i];
        c := i;
      }
      i := i + 1;
    }
  }

  /** Merge the two counts and trees in place. */
  method MergeInPlace(freq: array<nat>, codesize: array<nat>, others: array<int>, c1: nat, c2: nat, ghost f: Forest,
                      ghost chains: seq<seq<nat>>)
    requires freq.Length == codesize.Length == others.Length && freq != codesize
    requires others as object != freq as object && others as object != codesize as object
    requires c1 < freq.Length && c2 < freq.Length && c1 != c2 && freq[c1] > 0 && freq[c2] > 0
    requires f.freq == freq[..] && f.size == codesize[..] && Chained(others[..], f, chains)
    modifies freq, codesize, others
    ensures var g := Merge(f, c1, c2);
      freq[..] == g.freq && codesize[..] == g.size &&
      Chained(others[..], g, chains[c1 := chains[c1] + chains[c2]])
  {
    ghost var a, b := chains[c1], chains[c2];
    assert ChainOf(others[..], f.owner, a, c1) && ChainOf(others[..], f.owner, b, c2);
    MergeKeepsChained(others[..], f, chains, c1, c2);
    OtherChain(others[..], f.owner, b, c2, a, c1, c2);
    freq[c1] := freq[c1] + freq[c2];
    freq[c2] := 0;
    var last := Deepen(codesize, others, c1, a);
    ghost var linked := others[..][last := c2];
    others[last] := c2;
    assert others[..] == linked;
    var _ := Deepen(codesize, others, c2, b);
    assert codesize[..] == Merge(f, c1, c2).size;
    assert others[..] == linked;
  }

  /** Huffman's basic algorithm. The code sizes it assigns have Kraft sum exactly 1, are
      optimal, and are largest for the last symbol. */
  method BuildTree(freq: array<nat>, codesize: array<nat>, others: array<int>)
    requires freq.Length == codesize.Length == others.Length > 0 && freq != codesize
    requires others as object != freq as object && others as object != codesize as object
    requires freq[freq.Length - 1] == 1 && Sum(freq[..]) <= LIMIT + 1
    requires forall i :: 0 <= i < codesize.Length ==> codesize[i] == 0 && others[i] == -1
    modifies freq, codesize, others
    ensures Optimal(old(freq[..]), codesize[..])
    ensures forall i :: 0 <= i < codesize.Length ==> codesize[i] <= codesize[codesize.Length - 1]
    ensures forall i :: 0 <= i < codesize.Length && old(freq[i]) == 0 ==> codesize[i] == 0
  {
    hide Sum, Grown, LastDeepest, Chained, Least, Optimal;
    ghost var count := freq[..];
    ghost var f := Initial(count);
    ghost var chains: seq<seq<nat>> := seq(freq.Length, i => [i]);
    InitialGrown(count);
    InitialLastDeepest(count);
    InitialChained(count, others[..], chains);
    ghost var w, i := 0, 0;
    while true
      invariant f.freq == freq[..] && f.size == codesize[..] && |f.freq| == |chains| == |count|
      invariant Grown(count, f) && Owned(count, f) && Chained(others[..], f, chains) && LastDeepest(count, f, w, i)
      decreases Live(f.freq)
    {
      var c1 := FindLeast(freq, -1);
      var c2 := FindLeast(freq, c1);
      if c2 < 0 {
        break;
      }
      MergeKeepsGrown(count, f);
      w, i := MergeKeepsLastDeepest(count, f, w, i);
      JoinLive(f.freq, c1, c2);
      MergeInPlace(freq, codesize, others, c1, c2, f, chains);
      chains := chains[c1 := chains[c1] + chains[c2]];
      f := Merge(f, c1, c2);
    }
    Finished(count, f, w, i);
  }

  /** Kraft sum exactly 1, and no assignment with Kraft sum at most 1 spends fewer bits. */
  ghost predicate Optimal(count: seq<nat>, size: seq<nat>) {
    && |size| == |count|
    && WithinDepth(count, size, |count|) && Units(count, size, |count|) == Pow2(|count|)
    && forall len, m :: |len| == |count| && Kraft(count, len, m) ==> Cost(count, size) <= Cost(count, len)
  }

  lemma Finished(count: seq<nat>, f: Forest, w: int, i: int)
    requires Grown(count, f) && Owned(count, f) && |count| > 0 && count[|count| - 1] > 0
    requires LastDeepest(count, f, w, i)
    requires Sum(count) <= LIMIT + 1 && (First(f.freq) < 0 || Second(f.freq) < 0)
    ensures Optimal(count, f.size)
    ensures forall k :: 0 <= k < |count| ==> f.size[k] <= f.size[|count| - 1]
    ensures forall k :: 0 <= k < |count| && count[k] == 0 ==> f.size[k] == 0
  {
    hide Sum, Units, Cost, Kraft, Grown, First, Second, WithinDepth;
    FinishedIsOptimal(count, f, |count| - 1);
  }

  // The whole generator ----------------------------------------------------------------

  /** A counted symbol gets at least one bit when there are two of them. */
  lemma CountedHasLength(count: seq<nat>, size: seq<nat>, a: nat, b: nat)
    requires Optimal(count, size) && a < |count| && b < |count| && a != b && count[a] > 0 && count[b] > 0
    ensures size[a] > 0
  {
    var n := |count|;
    var t := UnitTerms(count, size, n);
    if size[a] == 0 {
      SumUpdate(t, a, 0);
      SumMember(t[a := 0], b);
    }
  }

  /** The lengths of the counted symbols form a complete histogram. */
  lemma OptimalIsComplete(count: seq<nat>, size: seq<nat>, a: nat, b: nat)
    requires Optimal(count, size) && a < |count| && b < |count| && a != b && count[a] > 0 && count[b] > 0
    requires |count| >= MAX_CLEN && forall i :: 0 <= i < |count| ==> size[i] <= MAX_CLEN
    requires forall i :: 0 <= i < |count| && count[i] == 0 ==> size[i] == 0
    ensures Complete(Histogram(size)) && Sum(Histogram(size)) == Live(count)
  {
    hide Pow2, Sum;
    var n := |count|;
    forall i | 0 <= i < n && count[i] > 0 ensures size[i] > 0 {
      CountedHasLength(count, size, i, if i == a then b else a);
    }
    UnitsRescale(count, size, MAX_CLEN, n);
    Pow2Add(MAX_CLEN, n - MAX_CLEN);
    Cancel(Units(count, size, MAX_CLEN), Pow2(MAX_CLEN), Pow2(n - MAX_CLEN));
    HistogramSums(count, size, n);
    assert UnitTerms(count, size, MAX_CLEN)[..n] == UnitTerms(count, size, MAX_CLEN);
    assert LiveTerms(count)[..n] == LiveTerms(count);
    assert size[..n] == size;
  }

  lemma {:induction false} HistogramSums(count: seq<nat>, size: seq<nat>, k: nat)
    requires |count| == |size| && k <= |size|
    requires forall i :: 0 <= i < |count| ==> size[i] <= MAX_CLEN && (count[i] > 0 <==> size[i] > 0)
    ensures KraftBits(Histogram(size[..k]), MAX_CLEN) == Sum(UnitTerms(count, size, MAX_CLEN)[..k])
    ensures Sum(Histogram(size[..k])) == Sum(LiveTerms(count)[..k])
  {
    hide Pow2, Sum, Histogram;
    var h := Histogram(size[..k]);
    var u, v := UnitTerms(count, size, MAX_CLEN), LiveTerms(count);
    if k == 0 {
      EmptyHistogram(size[..0]);
      SumZero(h);
      SumZero(KraftTerms(h, MAX_CLEN));
      SumZero(u[..0]);
      SumZero(v[..0]);
    } else {
      HistogramSums(count, size, k - 1);
      var h0 := Histogram(size[..k - 1]);
      assert size[..k] == size[..k - 1] + [size[k - 1]];
      SumTake(u, k - 1);
      SumTake(v, k - 1);
      var s := size[k - 1];
      if s > 0 {
        HistogramSnoc(size[..k - 1], s);
        KraftUpdate(h0, MAX_CLEN, s, h0[s] + 1);
      } else {
        HistogramZero(size[..k - 1]);
      }
    }
  }

  lemma EmptyHistogram(size: seq<nat>)
    requires size == []
    ensures forall l :: 0 <= l <= MAX_CLEN ==> Histogram(size)[l] == 0
  {
  }

  lemma SumTake(s: seq<int>, k: nat)
    requires k < |s|
    ensures Sum(s[..k + 1]) == Sum(s[..k]) + s[k]
  {
    assert s[..k + 1][..k] == s[..k];
  }

  /** Count the number of symbols of each code length; false if one is over 32. */
  method CountLengths(codesize: array<nat>, bits: array<nat>) returns (ok: bool)
    requires bits.Length == MAX_CLEN + 1 && codesize != bits && forall l :: 0 <= l < bits.Length ==> bits[l] == 0
    requires codesize.Length <= 257
    requires (forall i :: 0 <= i < codesize.Length ==> codesize[i] <= MAX_CLEN) ==>
               Sum(Histogram(codesize[..])) <= 255
    modifies bits
    ensures ok <==> forall i :: 0 <= i < codesize.Length ==> codesize[i] <= MAX_CLEN
    ensures ok ==> bits[..] == Histogram(codesize[..])
  {
    hide Sum;
    var i := 0;
    assert bits[..] == Histogram(codesize[..0]);
    while i < codesize.Length
      invariant 0 <= i <= codesize.Length
      invariant forall k :: 0 <= k < i ==> codesize[k] <= MAX_CLEN
      invariant forall l :: 0 <= l < bits.Length ==> bits[l] == Histogram(codesize[..i])[l] % 256
    {
      assert codesize[..i + 1] == codesize[..i] + [codesize[i]];
      if codesize[i] != 0 {
        if codesize[i] > MAX_CLEN {
          return false;
        }
        HistogramSnoc(codesize[..i], codesize[i]);
        bits[codesize[i]] := (bits[codesize[i]] + 1) % 256;
      } else {
        HistogramZero(codesize[..i]);
      }
      i := i + 1;
    }
    assert codesize[..i] == codesize[..];
    EachAtMostSum(Histogram(codesize[..]));
    ok := true;
  }

  /** The list of the first 256 symbols sorted by code length. */
  method ListSymbols(codesize: array<nat>) returns (huffval: seq<nat>)
    requires codesize.Length == 257
    ensures huffval == Listing(codesize[..256], MAX_CLEN)
  {
    huffval := [];
    ghost var size := codesize[..256];
    var i := 1;
    while i <= MAX_CLEN
      invariant 1 <= i <= MAX_CLEN + 1 && huffval == Listing(size, i - 1)
    {
      var j := 0;
      while j <= 255
        invariant 0 <= j <= 256 && huffval == Listing(size, i - 1) + OfLength(size, i, j)
      {
        if codesize[j] == i {
          huffval := huffval + [j];
        }
        j := j + 1;
      }
      i := i + 1;
    }
  }

  /** What the generated table promises. `size` are optimal code lengths for the counts with
      the pseudo-symbol; the table lists the real symbols by length, counts as many codes as
      it lists symbols, leaves room below the all-ones code, and when no length had to be
      limited gives every symbol exactly its optimal length. */
  ghost predicate Generated(count: seq<nat>, size: seq<nat>, bits: seq<nat>, huffval: seq<nat>) {
    && |count| == |size| == 257 && |bits| == 17 && bits[0] == 0 && Optimal(count, size)
    && (forall i :: 0 <= i < 257 ==> (count[i] > 0 <==> size[i] > 0))
    && huffval == Listing(size[..256], MAX_CLEN) && |huffval| == Sum(bits)
    && KraftBits(bits, 16) < Pow2(16)
    && ((forall i :: 0 <= i < 257 ==> size[i] <= 16) ==> bits == Histogram(size[..256])[..17])
  }

  lemma LiveLast(freq: seq<nat>, count: seq<nat>)
    requires |freq| == 257 && count == freq[256 := 1]
    ensures Live(count) == Live(freq[256 := 0]) + 1
  {
    SumUpdate(LiveTerms(count), 256, 0);
    assert LiveTerms(freq[256 := 0]) == LiveTerms(count)[256 := 0];
  }

  /** jpeg_gen_optimal_table: fails only when a code length exceeds 32. bits[] has one byte
      per entry, hence at most 254 real symbols. */
  method GenOptimalTable(freq: array<nat>) returns (ok: bool, bits: seq<nat>, huffval: seq<nat>, ghost size: seq<nat>)
    requires freq.Length == 257 && Sum(freq[..256]) <= 1000000000 && Live(freq[..][256 := 0]) <= 254
    requires exists s :: 0 <= s < 256 && freq[s] > 0
    modifies freq
    ensures |size| == 257 && Optimal(old(freq[..])[256 := 1], size)
    ensures ok <==> forall i :: 0 <= i < 257 ==> size[i] <= 32
    ensures ok ==> Generated(old(freq[..])[256 := 1], size, bits, huffval) && |huffval| <= 254
  {
    hide Sum, Pow2, Optimal, Histogram, Live, Listing, KraftBits;
    ghost var some :| 0 <= some < 256 && freq[some] > 0;
    ghost var count := freq[..][256 := 1];
    CountsTotal(freq[..]);
    LiveLast(freq[..], count);
    var counts := new nat[MAX_CLEN + 1](_ => 0);
    var codesize := new nat[257](_ => 0);
    var others := new int[257](_ => -1);
    freq[256] := 1;
    assert freq[..] == count;
    BuildTree(freq, codesize, others);
    size := codesize[..];
    CountedPositive(count, size, some);
    if forall i :: 0 <= i < 257 ==> size[i] <= MAX_CLEN {
      OptimalIsComplete(count, size, some, 256);
    }
    ok := CountLengths(codesize, counts);
    if !ok {
      bits, huffval := [], [];
      return;
    }
    ghost var hist := counts[..];
    LimitLengths(counts);
    ghost var limited := counts[..];
    var i := RemoveLongest(counts);
    RemovedLeavesRoom(limited, i);
    bits := counts[..17];
    huffval := ListSymbols(codesize);
    assert codesize[..256] == size[..256];
    TableFits(size, hist, limited, i);
  }

  lemma CountsTotal(freq: seq<nat>)
    requires |freq| == 257
    ensures Sum(freq[256 := 1]) == Sum(freq[..256]) + 1
  {
    assert freq[256 := 1][..256] == freq[..256];
  }

  lemma CountedPositive(count: seq<nat>, size: seq<nat>, some: nat)
    requires |count| == |size| == 257 && Optimal(count, size) && count[256] > 0 && some < 256 && count[some] > 0
    requires forall i :: 0 <= i < 257 && count[i] == 0 ==> size[i] == 0
    ensures forall i :: 0 <= i < 257 ==> (count[i] > 0 <==> size[i] > 0)
  {
    hide Optimal;
    forall i | 0 <= i < 257 && count[i] > 0 ensures size[i] > 0 {
      CountedHasLength(count, size, i, if i == 256 then some else 256);
    }
  }

  /** The counts left after removing the pseudo-symbol match the symbol list. */
  lemma TableFits(size: seq<nat>, hist: seq<nat>, limited: seq<nat>, i: nat)
    requires |size| == 257 && hist == Histogram(size) && (forall k :: 0 <= k < 257 ==> size[k] <= size[256] <= MAX_CLEN)
    requires size[256] > 0 && |limited| == MAX_CLEN + 1 && Sum(limited) == Sum(hist) && 1 <= i <= 16 && limited[i] > 0
    requires NothingAbove(limited, i) && (NothingAbove(hist, 16) ==> limited == hist)
    ensures var bits := limited[i := limited[i] - 1][..17];
      && |Listing(size[..256], MAX_CLEN)| == Sum(limited) - 1
      && ((forall k :: 0 <= k < 257 ==> size[k] <= 16) ==> bits == Histogram(size[..256])[..17])
  {
    hide Sum, Listing;
    var rest := Histogram(size[..256]);
    assert size == size[..256] + [size[256]];
    HistogramSnoc(size[..256], size[256]);
    assert hist == rest[size[256] := rest[size[256]] + 1];
    SumUpdate(rest, size[256], rest[size[256]] + 1);
    ListingLength(size[..256], MAX_CLEN);
    assert rest[..MAX_CLEN + 1] == rest;
    if forall k :: 0 <= k < 257 ==> size[k] <= 16 {
      NoneLonger(size, size[256]);
      assert hist[size[256]] > 0 && size[256] <= i;
      assert limited == hist && i == size[256];
      assert hist[i := hist[i] - 1] == rest;
    }
  }

  lemma NoneLonger(size: seq<nat>, m: nat)
    requires forall k :: 0 <= k < |size| ==> size[k] <= m
    ensures NothingAbove(Histogram(size), m)
  {
    forall l | m < l < MAX_CLEN + 1 ensures Histogram(size)[l] == 0 {
      assert l !in size;
    }
  }
}
