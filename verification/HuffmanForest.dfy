/** The state of Huffman's algorithm between merges: which symbols have been grouped under
    which root, and how deep each symbol has become. */
module HuffmanForest {
  import opened Numbers
  import opened HuffmanTree

  /** Remaining counts (nonzero at the roots), code sizes, and each counted symbol's root. */
  datatype Forest = Forest(freq: seq<nat>, size: seq<nat>, owner: seq<int>)

  function Initial(freq: seq<nat>): (f: Forest)
    ensures |f.size| == |f.owner| == |freq| && f.freq == freq
  {
    Forest(freq, seq(|freq|, _ => 0), seq(|freq|, i requires 0 <= i < |freq| => if freq[i] > 0 then i else -1))
  }

  /** One merge: counts added at c1, every symbol of both groups one bit deeper. */
  function Merge(f: Forest, c1: nat, c2: nat): (r: Forest)
    requires |f.size| == |f.owner| == |f.freq| && c1 < |f.freq| && c2 < |f.freq| && c1 != c2
    ensures |r.size| == |r.owner| == |r.freq| == |f.freq|
  {
    var n := |f.freq|;
    Forest(Join(f.freq, c1, c2),
           seq(n, i requires 0 <= i < n => if f.owner[i] == c1 || f.owner[i] == c2 then f.size[i] + 1 else f.size[i]),
           seq(n, i requires 0 <= i < n => if f.owner[i] == c2 then c1 else f.owner[i]))
  }

  ghost function GroupTerms(w: seq<int>, owner: seq<int>, r: int): (t: seq<int>)
    requires |w| == |owner|
    ensures |t| == |w|
  {
    seq(|w|, i requires 0 <= i < |w| => if owner[i] == r then w[i] else 0)
  }

  ghost function GroupSum(w: seq<int>, owner: seq<int>, r: int): int
    requires |w| == |owner|
  {
    Sum(GroupTerms(w, owner, r))
  }

  ghost function Weights(size: seq<nat>, m: nat): (w: seq<int>)
    ensures |w| == |size|
  {
    seq(|size|, i requires 0 <= i < |size| => if size[i] <= m then Pow2(m - size[i]) else 0)
  }

  ghost predicate Owned(count: seq<nat>, f: Forest)
  {
    var n := |count|;
    && |f.freq| == |f.size| == |f.owner| == n
    && (forall i :: 0 <= i < n ==> (count[i] > 0 <==> f.owner[i] >= 0))
    && (forall i :: 0 <= i < n && f.owner[i] >= 0 ==> f.owner[i] < n && f.freq[f.owner[i]] > 0)
    && (forall r :: 0 <= r < n && f.freq[r] > 0 ==> f.owner[r] == r)
    && (forall i :: 0 <= i < n && f.owner[i] < 0 ==> f.size[i] == 0)
  }

  /** What every merge keeps: each root's count is its group's total, each group's code
      lengths have Kraft sum exactly 1, and bits spent plus merges to come is constant. */
  ghost predicate Grown(count: seq<nat>, f: Forest)
  {
    var n := |count|;
    && Owned(count, f)
    && Sum(f.freq) == Sum(count)
    && (forall r :: 0 <= r < n && f.freq[r] > 0 ==>
          GroupSum(count, f.owner, r) == f.freq[r] && GroupSum(Weights(f.size, n), f.owner, r) == Pow2(n))
    && (forall i :: 0 <= i < n ==> f.size[i] + Live(f.freq) <= n + 1)
    && Cost(count, f.size) + MergeCost(f.freq) == MergeCost(count)
  }

  lemma {:induction false} LiveBound(freq: seq<nat>)
    ensures Live(freq) <= |freq|
  {
    var ones := seq(|freq|, _ => 1);
    SumLe(LiveTerms(freq), ones);
    SumOnes(|freq|);
  }

  lemma {:induction false} SumSingle(s: seq<int>, i: nat)
    requires i < |s| && forall j :: 0 <= j < |s| && j != i ==> s[j] == 0
    ensures Sum(s) == s[i]
  {
    SumUpdate(s, i, 0);
    SumZero(s[i := 0]);
  }

  lemma InitialGrown(count: seq<nat>)
    ensures Grown(count, Initial(count))
  {
    hide Pow2, MergeCost, Sum, Live, Least;
    var f, n := Initial(count), |count|;
    forall r | 0 <= r < n && count[r] > 0
      ensures GroupSum(count, f.owner, r) == count[r] && GroupSum(Weights(f.size, n), f.owner, r) == Pow2(n)
    {
      SumSingle(GroupTerms(count, f.owner, r), r);
      SumSingle(GroupTerms(Weights(f.size, n), f.owner, r), r);
    }
    LiveBound(count);
    SumZero(CostTerms(count, f.size));
  }

  lemma {:induction false} SumAdd(s: seq<int>, t: seq<int>, u: seq<int>)
    requires |s| == |t| == |u| && forall i :: 0 <= i < |s| ==> s[i] == t[i] + u[i]
    ensures Sum(s) == Sum(t) + Sum(u)
  {
    if |s| > 0 {
      var n := |s| - 1;
      SumAdd(s[..n], t[..n], u[..n]);
    }
  }

  /** Group totals after a merge. */
  lemma MergedCounts(count: seq<nat>, f: Forest, c1: nat, c2: nat, r: nat)
    requires Owned(count, f) && c1 < |count| && c2 < |count| && c1 != c2
    ensures var g := Merge(f, c1, c2);
      GroupSum(count, g.owner, r) ==
        if r == c1 then GroupSum(count, f.owner, c1) + GroupSum(count, f.owner, c2)
        else if r == c2 then 0 else GroupSum(count, f.owner, r)
  {
    var g := Merge(f, c1, c2);
    if r == c1 {
      SumAdd(GroupTerms(count, g.owner, c1), GroupTerms(count, f.owner, c1), GroupTerms(count, f.owner, c2));
    } else if r == c2 {
      SumZero(GroupTerms(count, g.owner, r));
    } else {
      assert GroupTerms(count, g.owner, r) == GroupTerms(count, f.owner, r);
    }
  }

  /** Two full binary trees under a new root make a full binary tree. */
  lemma MergedUnits(count: seq<nat>, f: Forest, c1: nat, c2: nat, r: nat)
    requires Owned(count, f) && c1 < |count| && c2 < |count| && c1 != c2 && r != c2
    requires forall i :: 0 <= i < |count| ==> f.size[i] < |count|
    ensures var g, n := Merge(f, c1, c2), |count|;
      var w, w' := Weights(f.size, n), Weights(g.size, n);
      if r == c1 then 2 * GroupSum(w', g.owner, c1) == GroupSum(w, f.owner, c1) + GroupSum(w, f.owner, c2)
      else GroupSum(w', g.owner, r) == GroupSum(w, f.owner, r)
  {
    var g, n := Merge(f, c1, c2), |count|;
    var w, w' := Weights(f.size, n), Weights(g.size, n);
    if r == c1 {
      var t := GroupTerms(w', g.owner, c1);
      var twice := seq(n, i requires 0 <= i < n => t[i] * 2);
      SumScale(twice, t, 2);
      SumAdd(twice, GroupTerms(w, f.owner, c1), GroupTerms(w, f.owner, c2));
    } else {
      assert GroupTerms(w', g.owner, r) == GroupTerms(w, f.owner, r);
    }
  }

  /** A merge costs one more bit for every occurrence of every symbol merged. */
  lemma MergedCost(count: seq<nat>, f: Forest, c1: nat, c2: nat)
    requires Owned(count, f) && c1 < |count| && c2 < |count| && c1 != c2
    ensures Cost(count, Merge(f, c1, c2).size) ==
            Cost(count, f.size) + GroupSum(count, f.owner, c1) + GroupSum(count, f.owner, c2)
  {
    var both := seq(|count|, i requires 0 <= i < |count| =>
      GroupTerms(count, f.owner, c1)[i] + GroupTerms(count, f.owner, c2)[i]);
    SumAdd(both, GroupTerms(count, f.owner, c1), GroupTerms(count, f.owner, c2));
    SumAdd(CostTerms(count, Merge(f, c1, c2).size), CostTerms(count, f.size), both);
  }

  lemma SumMove(s: seq<int>, i: nat, j: nat)
    requires i < |s| && j < |s| && i != j
    ensures Sum(s[i := s[i] + s[j]][j := 0]) == Sum(s)
  {
    hide Sum;
    var t := s[i := s[i] + s[j]];
    SumUpdate(s, i, s[i] + s[j]);
    assert t[j] == s[j];
    SumUpdate(t, j, 0);
  }

  lemma JoinSum(freq: seq<nat>, c1: nat, c2: nat)
    requires c1 < |freq| && c2 < |freq| && c1 != c2
    ensures Sum(Join(freq, c1, c2)) == Sum(freq)
  {
    hide Sum;
    SumMove(freq, c1, c2);
  }

  lemma LivePositive(freq: seq<nat>, i: nat)
    requires i < |freq| && freq[i] > 0
    ensures Live(freq) >= 1
  {
    SumMember(LiveTerms(freq), i);
  }

  lemma MergeKeepsOwned(count: seq<nat>, f: Forest, c1: nat, c2: nat)
    requires Owned(count, f) && c1 < |count| && c2 < |count| && c1 != c2
    requires f.freq[c1] > 0 && f.freq[c2] > 0
    ensures Owned(count, Merge(f, c1, c2))
  {
  }

  lemma MergeKeepsTotals(count: seq<nat>, f: Forest, r: nat)
    requires Grown(count, f) && First(f.freq) >= 0 && Second(f.freq) >= 0 && r < |count|
    requires Merge(f, First(f.freq), Second(f.freq)).freq[r] > 0
    ensures var g := Merge(f, First(f.freq), Second(f.freq));
      GroupSum(count, g.owner, r) == g.freq[r] && GroupSum(Weights(g.size, |count|), g.owner, r) == Pow2(|count|)
  {
    hide Pow2, Sum, Live, Cost, GroupSum, Weights, MergeCost, First, Second;
    var c1, c2 := First(f.freq), Second(f.freq);
    FirstSecond(f.freq);
    JoinLive(f.freq, c1, c2);
    LivePositive(Join(f.freq, c1, c2), c1);
    MergedCounts(count, f, c1, c2, r);
    MergedUnits(count, f, c1, c2, r);
  }

  lemma FirstSecond(freq: seq<nat>)
    ensures First(freq) < |freq| && Second(freq) < |freq|
    ensures First(freq) >= 0 ==> freq[First(freq)] > 0
    ensures Second(freq) >= 0 ==> freq[Second(freq)] > 0 && Second(freq) != First(freq)
  {
  }

  lemma MergeKeepsGrown(count: seq<nat>, f: Forest)
    requires Grown(count, f) && First(f.freq) >= 0 && Second(f.freq) >= 0
    ensures Grown(count, Merge(f, First(f.freq), Second(f.freq)))
  {
    hide Pow2, Sum, Live, Cost, GroupSum, Weights, First, Second;
    FirstSecond(f.freq);
    var c1, c2, n := First(f.freq), Second(f.freq), |count|;
    var g := Merge(f, c1, c2);
    MergeKeepsOwned(count, f, c1, c2);
    JoinLive(f.freq, c1, c2);
    JoinSum(f.freq, c1, c2);
    MergedCost(count, f, c1, c2);
    forall r | 0 <= r < n && g.freq[r] > 0
      ensures GroupSum(count, g.owner, r) == g.freq[r] && GroupSum(Weights(g.size, n), g.owner, r) == Pow2(n)
    {
      MergeKeepsTotals(count, f, r);
    }
  }

  // Termination -------------------------------------------------------------------------

  /** With a total of at most LIMIT + 1, the search fails only when one root is left. */
  lemma OneRootLeft(freq: seq<nat>, a: nat, b: nat)
    requires Sum(freq) <= LIMIT + 1 && (First(freq) < 0 || Second(freq) < 0)
    requires a < |freq| && b < |freq| && freq[a] > 0 && freq[b] > 0
    ensures a == b
  {
    if a != b {
      var z := freq[a := 0];
      SumUpdate(freq, a, 0);
      SumMember(z, b);
    }
  }

  /** The result: the code sizes of the counted symbols have Kraft sum exactly 1, and no
      assignment with Kraft sum at most 1 spends fewer bits. */
  lemma FinishedIsOptimal(count: seq<nat>, f: Forest, some: nat)
    requires Grown(count, f) && (First(f.freq) < 0 || Second(f.freq) < 0)
    requires Sum(count) <= LIMIT + 1 && some < |count| && count[some] > 0
    ensures Units(count, f.size, |count|) == Pow2(|count|) && WithinDepth(count, f.size, |count|)
    ensures forall len, m :: |len| == |count| && Kraft(count, len, m) ==> Cost(count, f.size) <= Cost(count, len)
  {
    hide Pow2, Cost;
    var n, r := |count|, f.owner[some];
    forall i | 0 <= i < n && count[i] > 0 ensures f.owner[i] == r && f.size[i] <= n {
      OneRootLeft(f.freq, f.owner[i], r);
      LivePositive(f.freq, r);
    }
    assert GroupTerms(Weights(f.size, n), f.owner, r) == UnitTerms(count, f.size, n);
    forall len, m | |len| == |count| && Kraft(count, len, m) ensures Cost(count, f.size) <= Cost(count, len) {
      NoCodeBeatsMerging(count, len, m);
    }
  }

  // The last symbol is among the deepest ------------------------------------------------

  /** Root a is picked before root b. */
  predicate Before(freq: seq<nat>, a: int, b: int)
    requires 0 <= a < |freq| && 0 <= b < |freq|
  {
    freq[a] < freq[b] || (freq[a] == freq[b] && a > b)
  }

  ghost predicate NoneDeeper(f: Forest, h: nat) {
    forall k :: 0 <= k < |f.size| ==> f.size[k] <= h
  }

  /** Groups other than g that reach depth h are picked after g. */
  ghost predicate AsDeepLater(f: Forest, g: int, h: nat)
    requires 0 <= g < |f.freq| && |f.size| == |f.owner| && forall k :: 0 <= k < |f.owner| ==> f.owner[k] < |f.freq|
  {
    forall k :: 0 <= k < |f.size| && f.owner[k] >= 0 && f.owner[k] != g && f.size[k] == h ==>
      Before(f.freq, g, f.owner[k])
  }

  /** g weighs at most two groups of count w, and every other root comes after root i of
      count w. */
  ghost predicate PairFirst(freq: seq<nat>, g: int, w: int, i: int)
    requires 0 <= g < |freq|
  {
    && 0 < w && freq[g] <= 2 * w && (freq[g] == 2 * w ==> g > i)
    && forall p :: 0 <= p < |freq| && freq[p] > 0 && p != g ==> freq[p] > w || (freq[p] == w && p < i)
  }

  /** The last symbol's group holds the deepest symbols, and any other group as deep is
      picked after it. `w`, `i` are the count and root of the second group in the latest
      merge of the last symbol's group. */
  ghost predicate LastDeepest(count: seq<nat>, f: Forest, w: int, i: int)
    requires Owned(count, f) && |count| > 0 && count[|count| - 1] > 0
  {
    var n := |count|;
    var g, h := f.owner[n - 1], f.size[n - 1];
    NoneDeeper(f, h) && AsDeepLater(f, g, h) && (h > 0 ==> PairFirst(f.freq, g, w, i))
  }

  lemma InitialLastDeepest(count: seq<nat>)
    requires |count| > 0 && count[|count| - 1] == 1
    ensures Owned(count, Initial(count)) && LastDeepest(count, Initial(count), 0, 0)
  {
  }

  /** c1 and c2 are picked before every other root. */
  ghost predicate Picked(freq: seq<nat>, c1: int, c2: int) {
    && 0 <= c1 < |freq| && 0 <= c2 < |freq| && freq[c1] > 0 && freq[c2] > 0 && Before(freq, c1, c2)
    && forall p :: 0 <= p < |freq| && freq[p] > 0 && p != c1 && p != c2 ==> Before(freq, c2, p)
  }

  lemma SearchPicks(freq: seq<nat>)
    requires First(freq) >= 0 && Second(freq) >= 0
    ensures Picked(freq, First(freq), Second(freq))
  {
  }

  lemma OwnPair(freq: seq<nat>, c1: int, c2: int)
    requires Picked(freq, c1, c2)
    ensures PairFirst(Join(freq, c1, c2), c1, freq[c2], c2)
  {
  }

  ghost predicate Shaped(f: Forest) {
    |f.freq| == |f.size| == |f.owner| && forall k :: 0 <= k < |f.owner| ==> f.owner[k] < |f.freq|
  }

  lemma OwnDepth(f: Forest, c1: nat, c2: nat, h: nat)
    requires Shaped(f) && c1 < |f.freq| && c2 < |f.freq| && c1 != c2 && NoneDeeper(f, h)
    ensures Shaped(Merge(f, c1, c2)) && NoneDeeper(Merge(f, c1, c2), h + 1)
    ensures AsDeepLater(Merge(f, c1, c2), c1, h + 1)
  {
  }

  lemma OtherDepth(f: Forest, c1: nat, c2: nat, g: nat, h: nat)
    requires Shaped(f) && c1 < |f.freq| && c2 < |f.freq| && c1 != c2 && g < |f.freq| && g != c1 && g != c2
    requires NoneDeeper(f, h) && AsDeepLater(f, g, h)
    requires Before(f.freq, c1, g) && Before(f.freq, c2, g) && Before(Join(f.freq, c1, c2), g, c1)
    ensures Shaped(Merge(f, c1, c2)) && NoneDeeper(Merge(f, c1, c2), h) && AsDeepLater(Merge(f, c1, c2), g, h)
  {
  }

  /** The last symbol's own group is merged: it alone is deepest now. */
  lemma OwnMerge(count: seq<nat>, f: Forest, w: int, i: int, c1: int, c2: int)
    requires Owned(count, f) && |count| > 0 && count[|count| - 1] > 0
    requires LastDeepest(count, f, w, i) && Picked(f.freq, c1, c2) && f.owner[|count| - 1] in {c1, c2}
    requires Owned(count, Merge(f, c1, c2))
    ensures LastDeepest(count, Merge(f, c1, c2), f.freq[c2], c2)
  {
    OwnPair(f.freq, c1, c2);
    OwnDepth(f, c1, c2, f.size[|count| - 1]);
    hide PairFirst, Picked, Before, NoneDeeper, AsDeepLater;
  }

  lemma OtherPair(freq: seq<nat>, g: int, w: int, i: int, c1: int, c2: int)
    requires 0 <= g < |freq| && g != c1 && g != c2 && Picked(freq, c1, c2) && PairFirst(freq, g, w, i)
    ensures PairFirst(Join(freq, c1, c2), g, w, i) && Before(Join(freq, c1, c2), g, c1)
  {
  }

  /** A root picked before g is not as deep as g. */
  lemma PickedShallow(f: Forest, g: nat, h: nat, c1: int, c2: int)
    requires Shaped(f) && Picked(f.freq, c1, c2) && g < |f.freq| && f.freq[g] > 0 && g != c1 && g != c2
    requires NoneDeeper(f, h) && AsDeepLater(f, g, h) && f.owner[c1] == c1
    ensures Before(f.freq, c1, g) && Before(f.freq, c2, g) && f.size[c1] < h
  {
    assert Before(f.freq, c2, g);
    assert !Before(f.freq, g, f.owner[c1]);
  }

  /** Two other groups are merged: they were shallower, and together they weigh at least as
      much as the last symbol's group. */
  lemma OtherMerge(count: seq<nat>, f: Forest, w: int, i: int, c1: int, c2: int)
    requires Owned(count, f) && |count| > 0 && count[|count| - 1] > 0
    requires LastDeepest(count, f, w, i) && Picked(f.freq, c1, c2) && f.owner[|count| - 1] !in {c1, c2}
    requires Owned(count, Merge(f, c1, c2))
    ensures LastDeepest(count, Merge(f, c1, c2), w, i)
  {
    hide PairFirst, Before, NoneDeeper, AsDeepLater;
    var g, h := f.owner[|count| - 1], f.size[|count| - 1];
    PickedShallow(f, g, h, c1, c2);
    OtherPair(f.freq, g, w, i, c1, c2);
    OtherDepth(f, c1, c2, g, h);
  }

  lemma MergeKeepsLastDeepest(count: seq<nat>, f: Forest, w: int, i: int) returns (w': int, i': int)
    requires Owned(count, f) && |count| > 0 && count[|count| - 1] > 0
    requires LastDeepest(count, f, w, i) && First(f.freq) >= 0 && Second(f.freq) >= 0
    ensures var g := Merge(f, First(f.freq), Second(f.freq)); Owned(count, g) && LastDeepest(count, g, w', i')
  {
    hide First, Second;
    SearchPicks(f.freq);
    var c1, c2, g := First(f.freq), Second(f.freq), f.owner[|count| - 1];
    MergeKeepsOwned(count, f, c1, c2);
    if g == c1 || g == c2 {
      OwnMerge(count, f, w, i, c1, c2);
      w', i' := f.freq[c2], c2;
    } else {
      OtherMerge(count, f, w, i, c1, c2);
      w', i' := w, i;
    }
  }
}
