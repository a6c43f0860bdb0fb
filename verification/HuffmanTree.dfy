/** Huffman's algorithm on an array of symbol counts, as section K.2 of ITU-T T.81 runs it,
    and the optimality of what it computes. */
module HuffmanTree {
  import opened Numbers

  function Sum(s: seq<int>): int {
    if |s| == 0 then 0 else Sum(s[..|s| - 1]) + s[|s| - 1]
  }

  lemma {:induction false} SumUpdate(s: seq<int>, i: nat, v: int)
    requires i < |s|
    ensures Sum(s[i := v]) == Sum(s) - s[i] + v
  {
    var n := |s| - 1;
    if i == n {
      assert s[i := v][..n] == s[..n];
    } else {
      SumUpdate(s[..n], i, v);
      assert s[i := v][..n] == s[..n][i := v];
    }
  }

  lemma {:induction false} SumLe(s: seq<int>, t: seq<int>)
    requires |s| == |t| && forall i :: 0 <= i < |s| ==> s[i] <= t[i]
    ensures Sum(s) <= Sum(t)
  {
    if |s| > 0 {
      SumLe(s[..|s| - 1], t[..|s| - 1]);
    }
  }

  lemma {:induction false} SumZero(s: seq<int>)
    requires forall i :: 0 <= i < |s| ==> s[i] == 0
    ensures Sum(s) == 0
  {
    if |s| > 0 {
      SumZero(s[..|s| - 1]);
    }
  }

  /** One summand is at most the sum. */
  lemma {:induction false} SumOnes(n: nat)
    ensures Sum(seq(n, _ => 1)) == n
  {
    if n > 0 {
      SumOnes(n - 1);
      assert seq(n, _ => 1)[..n - 1] == seq(n - 1, _ => 1);
    }
  }

  lemma SumMember(s: seq<int>, i: nat)
    requires i < |s| && forall j :: 0 <= j < |s| ==> 0 <= s[j]
    ensures s[i] <= Sum(s)
  {
    var z := s[i := 0];
    SumUpdate(s, i, 0);
    SumZero(seq(|s|, _ => 0));
    SumLe(seq(|s|, _ => 0), z);
  }

  // Length assignments -----------------------------------------------------------------

  ghost function UnitTerms(freq: seq<nat>, len: seq<nat>, m: nat): (r: seq<int>)
    requires |len| == |freq|
    ensures |r| == |freq| && forall i :: 0 <= i < |r| ==> 0 <= r[i]
  {
    seq(|freq|, i requires 0 <= i < |freq| => if freq[i] > 0 && len[i] <= m then Pow2(m - len[i]) else 0)
  }

  /** The Kraft sum of the counted symbols, in units of 2^-m. */
  ghost function Units(freq: seq<nat>, len: seq<nat>, m: nat): int
    requires |len| == |freq|
  {
    Sum(UnitTerms(freq, len, m))
  }

  ghost predicate WithinDepth(freq: seq<nat>, len: seq<nat>, m: nat)
    requires |len| == |freq|
  {
    forall i :: 0 <= i < |freq| && freq[i] > 0 ==> len[i] <= m
  }

  /** `len` is the lengths of some prefix code for the counted symbols: Kraft sum at most 1. */
  ghost predicate Kraft(freq: seq<nat>, len: seq<nat>, m: nat)
    requires |len| == |freq|
  {
    WithinDepth(freq, len, m) && Units(freq, len, m) <= Pow2(m)
  }

  ghost function CostTerms(freq: seq<nat>, len: seq<nat>): (r: seq<int>)
    requires |len| == |freq|
    ensures |r| == |freq| && forall i :: 0 <= i < |r| ==> 0 <= r[i]
  {
    seq(|freq|, i requires 0 <= i < |freq| => freq[i] * len[i])
  }

  /** Total number of bits spent. */
  ghost function Cost(freq: seq<nat>, len: seq<nat>): int
    requires |len| == |freq|
  {
    Sum(CostTerms(freq, len))
  }

  lemma CostNonnegative(freq: seq<nat>, len: seq<nat>)
    requires |len| == |freq|
    ensures 0 <= Cost(freq, len)
  {
    var z := seq(|freq|, _ => 0);
    SumZero(z);
    SumLe(z, CostTerms(freq, len));
  }

  /** Changing the count and length of one symbol. */
  lemma UpdateOne(freq: seq<nat>, len: seq<nat>, m: nat, i: nat, f: nat, l: nat)
    requires |len| == |freq| && i < |freq| && len[i] <= m && l <= m
    ensures Units(freq[i := f], len[i := l], m) ==
            Units(freq, len, m) - (if freq[i] > 0 then Pow2(m - len[i]) else 0) + (if f > 0 then Pow2(m - l) else 0)
    ensures Cost(freq[i := f], len[i := l]) == Cost(freq, len) - freq[i] * len[i] + f * l
  {
    hide Pow2, Sum;
    var t, c := UnitTerms(freq, len, m), CostTerms(freq, len);
    SumUpdate(t, i, if f > 0 then Pow2(m - l) else 0);
    SumUpdate(c, i, f * l);
    assert UnitTerms(freq[i := f], len[i := l], m) == t[i := if f > 0 then Pow2(m - l) else 0];
    assert CostTerms(freq[i := f], len[i := l]) == c[i := f * l];
  }

  lemma {:induction false} SumScale(s: seq<int>, t: seq<int>, k: int)
    requires |s| == |t| && forall i :: 0 <= i < |s| ==> s[i] == t[i] * k
    ensures Sum(s) == Sum(t) * k
  {
    if |s| > 0 {
      SumScale(s[..|s| - 1], t[..|s| - 1], k);
    }
  }

  /** Finer units. */
  lemma UnitsRescale(freq: seq<nat>, len: seq<nat>, l: nat, m: nat)
    requires |len| == |freq| && l <= m && WithinDepth(freq, len, l)
    ensures Units(freq, len, m) == Units(freq, len, l) * Pow2(m - l)
  {
    var s, t := UnitTerms(freq, len, m), UnitTerms(freq, len, l);
    forall i | 0 <= i < |s| ensures s[i] == t[i] * Pow2(m - l) {
      if freq[i] > 0 {
        Pow2Add(l - len[i], m - l);
      }
    }
    SumScale(s, t, Pow2(m - l));
  }

  // The algorithm ----------------------------------------------------------------------

  const LIMIT := 1000000000

  /** The smallest nonzero count among the first n, other than that of `skip`; the larger
      symbol number in case of ties; -1 if there is none (up to LIMIT). */
  function Least(freq: seq<nat>, skip: int, n: nat): (c: int)
    requires n <= |freq|
    ensures -1 <= c < n
    ensures c >= 0 ==> c != skip && 0 < freq[c] <= LIMIT
    ensures c >= 0 ==>
      forall i :: 0 <= i < n && i != skip && freq[i] > 0 ==> freq[c] <= freq[i] && (freq[c] == freq[i] ==> i <= c)
    ensures c < 0 ==> forall i :: 0 <= i < n && i != skip && freq[i] > 0 ==> freq[i] > LIMIT
  {
    if n == 0 then -1
    else
      var c := Least(freq, skip, n - 1);
      if freq[n - 1] != 0 && freq[n - 1] <= (if c < 0 then LIMIT else freq[c]) && n - 1 != skip then n - 1 else c
  }

  function First(freq: seq<nat>): int { Least(freq, -1, |freq|) }
  function Second(freq: seq<nat>): int { Least(freq, First(freq), |freq|) }

  function Join(freq: seq<nat>, c1: nat, c2: nat): (r: seq<nat>)
    requires c1 < |freq| && c2 < |freq| && c1 != c2
    ensures |r| == |freq|
  {
    freq[c1 := freq[c1] + freq[c2]][c2 := 0]
  }

  ghost function LiveTerms(freq: seq<nat>): (r: seq<int>)
    ensures |r| == |freq|
  {
    seq(|freq|, i requires 0 <= i < |freq| => if freq[i] > 0 then 1 else 0)
  }

  ghost function Live(freq: seq<nat>): (r: nat)
  {
    var z := seq(|freq|, _ => 0);
    SumZero(z);
    SumLe(z, LiveTerms(freq));
    Sum(LiveTerms(freq))
  }

  lemma JoinLive(freq: seq<nat>, c1: nat, c2: nat)
    requires c1 < |freq| && c2 < |freq| && c1 != c2 && freq[c1] > 0 && freq[c2] > 0
    ensures Live(Join(freq, c1, c2)) == Live(freq) - 1
  {
    SumUpdate(LiveTerms(freq), c2, 0);
    assert LiveTerms(Join(freq, c1, c2)) == LiveTerms(freq)[c2 := 0];
  }

  /** The sum of all merged counts, which is what the algorithm's code will cost. */
  ghost function MergeCost(freq: seq<nat>): int
    decreases Live(freq)
  {
    var c1, c2 := First(freq), Second(freq);
    if c1 < 0 || c2 < 0 then 0
    else JoinLive(freq, c1, c2); freq[c1] + freq[c2] + MergeCost(Join(freq, c1, c2))
  }

  // No code does better ----------------------------------------------------------------

  ghost function Swap(len: seq<nat>, i: nat, j: nat): (r: seq<nat>)
    requires i < |len| && j < |len|
    ensures |r| == |len|
  {
    len[i := len[j]][j := len[i]]
  }

  /** A counted symbol other than `skip` with the longest length. */
  lemma Longest(freq: seq<nat>, len: seq<nat>, skip: int, some: nat) returns (p: nat)
    requires |len| == |freq| && some < |freq| && some != skip && freq[some] > 0
    ensures p < |freq| && p != skip && freq[p] > 0
    ensures forall i :: 0 <= i < |freq| && i != skip && freq[i] > 0 ==> len[i] <= len[p]
  {
    p := some;
    var k := 0;
    while k < |freq|
      invariant 0 <= k <= |freq| && p < |freq| && p != skip && freq[p] > 0
      invariant forall i :: 0 <= i < k && i != skip && freq[i] > 0 ==> len[i] <= len[p]
    {
      if k != skip && freq[k] > 0 && len[k] > len[p] {
        p := k;
      }
      k := k + 1;
    }
  }

  lemma SwapCost(a: int, b: int, x: int, y: int)
    requires a <= b && x <= y
    ensures a * y + b * x <= a * x + b * y
  {
    assert (b - a) * (y - x) >= 0;
  }

  /** Giving the rarer symbol the longer length never costs more. */
  lemma Exchange(freq: seq<nat>, len: seq<nat>, m: nat, i: nat, j: nat)
    requires |len| == |freq| && i < |freq| && j < |freq| && Kraft(freq, len, m)
    requires 0 < freq[i] <= freq[j] && len[i] <= len[j]
    ensures Kraft(freq, Swap(len, i, j), m) && Cost(freq, Swap(len, i, j)) <= Cost(freq, len)
  {
    hide Pow2, Units, Cost;
    if i == j {
      assert Swap(len, i, j) == len;
    } else {
      UpdateOne(freq, len, m, i, freq[i], len[j]);
      var one := len[i := len[j]];
      UpdateOne(freq, one, m, j, freq[j], len[i]);
      assert freq[i := freq[i]] == freq && freq[j := freq[j]] == freq;
      SwapCost(freq[i], freq[j], len[i], len[j]);
    }
  }

  /** Siblings at the bottom: the two rarest symbols are merged into one that is one bit
      shorter than the second longest code. */
  lemma MergeBottom(freq: seq<nat>, len: seq<nat>, m: nat, c1: nat, c2: nat)
    requires |len| == |freq| && c1 < |freq| && c2 < |freq| && c1 != c2 && freq[c1] > 0 && freq[c2] > 0
    requires Kraft(freq, len, m) && len[c2] <= len[c1]
    requires forall i :: 0 <= i < |freq| && i != c1 && freq[i] > 0 ==> len[i] <= len[c2]
    ensures len[c2] >= 1
    ensures var len' := len[c1 := len[c2] - 1];
      Kraft(Join(freq, c1, c2), len', len[c2]) &&
      Cost(Join(freq, c1, c2), len') + freq[c1] + freq[c2] <= Cost(freq, len)
  {
    hide Pow2, Units, Cost;
    var l := len[c2];
    var rest := freq[c1 := 0];
    UpdateOne(freq, len, m, c1, 0, len[c1]);
    assert len[c1 := len[c1]] == len;
    UnitsRescale(rest, len, l, m);
    var n := Units(rest, len, l);
    Pow2Add(l, m - l);
    if n >= Pow2(l) {
      MulLe(Pow2(l), n, Pow2(m - l));
    }
    assert n < Pow2(l);
    BottomUnit(rest, len, l, c2);
    if l == 0 {
      Pow2Constants();
    }
    MergedUnits(freq, len, c1, c2);
    MergedCost(freq[c1], freq[c2], len[c1], l);
  }

  lemma BottomUnit(freq: seq<nat>, len: seq<nat>, l: nat, c: nat)
    requires |len| == |freq| && c < |freq| && freq[c] > 0 && len[c] == l
    ensures Units(freq, len, l) >= 1
  {
    SumMember(UnitTerms(freq, len, l), c);
  }

  lemma MergedCost(a: int, b: int, x: int, l: int)
    requires 0 <= a && l <= x
    ensures (a + b) * (l - 1) + a + b <= a * x + b * l
  {
    MulLe(l, x, a);
  }

  /** How Units and Cost change when c1 and c2 are replaced by their merger. */
  lemma MergedUnits(freq: seq<nat>, len: seq<nat>, c1: nat, c2: nat)
    requires |len| == |freq| && c1 < |freq| && c2 < |freq| && c1 != c2 && freq[c1] > 0 && freq[c2] > 0
    requires len[c2] >= 1 && WithinDepth(freq[c1 := 0], len, len[c2])
    ensures var l := len[c2]; var len' := len[c1 := l - 1];
      && Units(Join(freq, c1, c2), len', l) == Units(freq[c1 := 0], len, l) + 1
      && WithinDepth(Join(freq, c1, c2), len', l)
      && Cost(Join(freq, c1, c2), len') ==
         Cost(freq, len) - freq[c1] * len[c1] - freq[c2] * l + (freq[c1] + freq[c2]) * (l - 1)
  {
    hide Units, Cost;
    var l := len[c2];
    var len0, len' := len[c1 := 0], len[c1 := l - 1];
    var rest := freq[c1 := 0];
    SameUnits(rest, len, len0, l, c1);
    UpdateOne(rest, len0, l, c1, freq[c1] + freq[c2], l - 1);
    var up := freq[c1 := freq[c1] + freq[c2]];
    assert rest[c1 := freq[c1] + freq[c2]] == up && len0[c1 := l - 1] == len';
    UpdateOne(up, len', l, c2, 0, l);
    assert len'[c2 := l] == len';
    UpdateCost(freq, len, c1, freq[c1] + freq[c2], l - 1);
    assert Pow2(1) == 2 && Pow2(0) == 1;
  }

  lemma UpdateCost(freq: seq<nat>, len: seq<nat>, i: nat, f: nat, l: nat)
    requires |len| == |freq| && i < |freq|
    ensures Cost(freq[i := f], len[i := l]) == Cost(freq, len) - freq[i] * len[i] + f * l
  {
    UpdateOne(freq, len, len[i] + l, i, f, l);
  }

  lemma SameUnits(freq: seq<nat>, len: seq<nat>, len0: seq<nat>, l: nat, c: nat)
    requires |len| == |freq| == |len0| && c < |freq| && freq[c] == 0 && len0 == len[c := 0]
    ensures Units(freq, len0, l) == Units(freq, len, l)
  {
    assert UnitTerms(freq, len0, l) == UnitTerms(freq, len, l);
  }

  /** Optimality: no assignment with Kraft sum at most 1 costs less than the sum of merges. */
  lemma {:induction false} NoCodeBeatsMerging(freq: seq<nat>, len: seq<nat>, m: nat)
    requires |len| == |freq| && Kraft(freq, len, m)
    ensures MergeCost(freq) <= Cost(freq, len)
    decreases Live(freq)
  {
    hide Units, Cost, Pow2, Live;
    var c1, c2 := First(freq), Second(freq);
    if c1 < 0 || c2 < 0 {
      CostNonnegative(freq, len);
    } else {
      var p := Longest(freq, len, -1, c1);
      Exchange(freq, len, m, c1, p);
      var len1 := Swap(len, c1, p);
      var q := Longest(freq, len1, c1, c2);
      Exchange(freq, len1, m, c2, q);
      var len2 := Swap(len1, c2, q);
      MergeBottom(freq, len2, m, c1, c2);
      JoinLive(freq, c1, c2);
      NoCodeBeatsMerging(Join(freq, c1, c2), len2[c1 := len2[c2] - 1], len2[c2]);
    }
  }
}
