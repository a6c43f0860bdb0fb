/** Histograms of code lengths: the Kraft sum of a histogram, and the length limiter of
    section K.2 of ITU-T T.81. */
module CodeLengths {
  import opened Numbers
  import opened HuffmanTree

  const MAX_CLEN := 32

  ghost function KraftTerms(bits: seq<nat>, m: nat): (r: seq<int>)
    ensures |r| == |bits| && forall l :: 0 <= l < |r| ==> 0 <= r[l]
  {
    seq(|bits|, l requires 0 <= l < |bits| => if l <= m then bits[l] * Pow2(m - l) else 0)
  }

  /** Kraft sum of a histogram (bits[l] codes of length l), in units of 2^-m. */
  ghost function KraftBits(bits: seq<nat>, m: nat): int {
    Sum(KraftTerms(bits, m))
  }

  lemma KraftUpdate(bits: seq<nat>, m: nat, l: nat, v: nat)
    requires l < |bits| && l <= m
    ensures KraftBits(bits[l := v], m) == KraftBits(bits, m) + (v - bits[l]) * Pow2(m - l)
    ensures Sum(bits[l := v]) == Sum(bits) + v - bits[l]
  {
    hide Sum, Pow2;
    SumUpdate(KraftTerms(bits, m), l, v * Pow2(m - l));
    assert KraftTerms(bits[l := v], m) == KraftTerms(bits, m)[l := v * Pow2(m - l)];
    SumUpdate(bits, l, v);
    assert (v - bits[l]) * Pow2(m - l) == v * Pow2(m - l) - bits[l] * Pow2(m - l);
  }

  lemma KraftShift(bits: seq<nat>, m: nat, l: nat, v: nat, d: int)
    requires l < |bits| && l <= m && v == bits[l] + d
    ensures KraftBits(bits[l := v], m) == KraftBits(bits, m) + d * Pow2(m - l)
    ensures Sum(bits[l := v]) == Sum(bits) + d
  {
    hide Sum, Pow2, KraftBits;
    KraftUpdate(bits, m, l, v);
  }

  ghost predicate NothingAbove(bits: seq<nat>, i: nat) {
    forall l :: i < l < |bits| ==> bits[l] == 0
  }

  /** Coarser units, when no code is longer than i. */
  lemma KraftRescale(bits: seq<nat>, i: nat, m: nat)
    requires i <= m && NothingAbove(bits, i)
    ensures KraftBits(bits, m) == KraftBits(bits, i) * Pow2(m - i)
  {
    hide Sum, Pow2;
    var s, t := KraftTerms(bits, m), KraftTerms(bits, i);
    forall l | 0 <= l < |s| ensures s[l] == t[l] * Pow2(m - i) {
      if l <= i {
        Pow2Add(i - l, m - i);
        MulAssoc(bits[l], Pow2(i - l), Pow2(m - i));
      } else if l <= m {
        assert bits[l] == 0;
      }
    }
    SumScale(s, t, Pow2(m - i));
  }

  lemma {:induction false} EvenSum(s: seq<int>, i: nat)
    requires i < |s| && forall l :: 0 <= l < |s| && l != i ==> s[l] % 2 == 0
    ensures (Sum(s) - s[i]) % 2 == 0
  {
    SumUpdate(s, i, 0);
    AllEven(s[i := 0]);
  }

  lemma {:induction false} AllEven(s: seq<int>)
    requires forall l :: 0 <= l < |s| ==> s[l] % 2 == 0
    ensures Sum(s) % 2 == 0
  {
    if |s| > 0 {
      AllEven(s[..|s| - 1]);
    }
  }

  /** A complete set of code lengths. */
  ghost predicate Complete(bits: seq<nat>) {
    |bits| == MAX_CLEN + 1 && bits[0] == 0 && KraftBits(bits, MAX_CLEN) == Pow2(MAX_CLEN)
  }

  lemma Cancel(x: int, y: int, k: int)
    requires k > 0 && x * k == y * k
    ensures x == y
  {
    if x < y { MulLt(x, y, k); } else if y < x { MulLt(y, x, k); }
  }

  /** The longest codes come in pairs. */
  lemma LongestCountEven(bits: seq<nat>, i: nat)
    requires Complete(bits) && 1 <= i <= MAX_CLEN && NothingAbove(bits, i)
    ensures bits[i] % 2 == 0
  {
    hide Sum, Pow2;
    KraftRescale(bits, i, MAX_CLEN);
    Pow2Add(i, MAX_CLEN - i);
    Cancel(KraftBits(bits, i), Pow2(i), Pow2(MAX_CLEN - i));
    var t := KraftTerms(bits, i);
    forall l | 0 <= l < |t| && l != i ensures t[l] % 2 == 0 {
      if l < i {
        Doubled(i - l, bits[l]);
      }
    }
    EvenSum(t, i);
    Doubled(i, 1);
    Pow2Constants();
  }

  lemma Doubled(n: nat, b: int)
    requires n > 0
    ensures b * Pow2(n) % 2 == 0
  {
    EvenProduct(b, Pow2(n - 1));
  }

  lemma EvenProduct(b: int, y: int)
    ensures b * (2 * y) % 2 == 0
  {
    var x := b * y;
    assert b * (2 * y) == 2 * x;
  }

  /** With so few codes some code must be at least two bits shorter than the longest. */
  lemma ShorterExists(bits: seq<nat>, i: nat) returns (j: nat)
    requires Complete(bits) && 17 <= i <= MAX_CLEN && NothingAbove(bits, i) && Sum(bits) <= 255
    ensures 1 <= j <= i - 2 && bits[j] > 0
  {
    hide Sum, Pow2;
    if forall l :: 1 <= l <= i - 2 ==> bits[l] == 0 {
      var k := Pow2(MAX_CLEN - i + 1);
      var t := seq(|bits|, l requires 0 <= l < |bits| => bits[l] * k);
      forall l | 0 <= l < |bits| ensures KraftTerms(bits, MAX_CLEN)[l] <= t[l] {
        if i - 1 <= l <= i {
          Pow2Monotonic(MAX_CLEN - l, MAX_CLEN - i + 1);
          MulLe(Pow2(MAX_CLEN - l), k, bits[l]);
        } else {
          assert bits[l] == 0;
        }
      }
      SumLe(KraftTerms(bits, MAX_CLEN), t);
      SumScale(t, bits, k);
      Pow2Monotonic(MAX_CLEN - i + 1, 16);
      MulLe(Sum(bits), 255, k);
      Pow2Add(16, 16);
      Pow2Constants();
    }
    j :| 1 <= j <= i - 2 && bits[j] > 0;
  }

  /** One adjustment: two codes of length i become one of length i - 1, one of length j
      becomes two of length j + 1. */
  function Adjust(bits: seq<nat>, i: nat, j: nat): (r: seq<nat>)
    requires 1 <= j && j + 2 <= i < |bits| && bits[i] >= 2 && bits[j] >= 1
    ensures |r| == |bits|
  {
    var b1 := bits[i := bits[i] - 2];
    var b2 := b1[i - 1 := b1[i - 1] + 1];
    var b3 := b2[j + 1 := b2[j + 1] + 2];
    b3[j := b3[j] - 1]
  }

  /** An adjustment keeps the Kraft sum and the number of codes. */
  lemma AdjustKeeps(bits: seq<nat>, i: nat, j: nat)
    requires Complete(bits) && 1 <= j && j + 2 <= i <= MAX_CLEN && bits[i] >= 2 && bits[j] >= 1
    ensures Complete(Adjust(bits, i, j)) && Sum(Adjust(bits, i, j)) == Sum(bits)
  {
    hide Sum, Pow2, KraftBits;
    var b1 := bits[i := bits[i] - 2];
    var b2 := b1[i - 1 := b1[i - 1] + 1];
    var b3 := b2[j + 1 := b2[j + 1] + 2];
    KraftShift(bits, MAX_CLEN, i, bits[i] - 2, -2);
    KraftShift(b1, MAX_CLEN, i - 1, b1[i - 1] + 1, 1);
    KraftShift(b2, MAX_CLEN, j + 1, b2[j + 1] + 2, 2);
    KraftShift(b3, MAX_CLEN, j, b3[j] - 1, -1);
    HalfPow2(MAX_CLEN - i);
    HalfPow2(MAX_CLEN - j - 1);
  }

  lemma HalfPow2(n: nat)
    ensures Pow2(n + 1) == 2 * Pow2(n)
  {
  }

  /** The longest length in use up to j, or 0. */
  function NextShorter(bits: seq<nat>, j: nat): (r: nat)
    requires j < |bits|
    ensures r <= j && (r > 0 ==> bits[r] > 0) && forall l :: r < l <= j ==> bits[l] == 0
  {
    if j == 0 || bits[j] > 0 then j else NextShorter(bits, j - 1)
  }

  /** Figure K.3: as long as some code is longer than 16 bits, the longest pair is adjusted, with the
      prefix taken from the next shorter length that is at least two bits shorter. */
  function Limited(bits: seq<nat>, i: nat): (r: seq<nat>)
    requires i < |bits|
    ensures |r| == |bits|
    decreases i, if i < |bits| then bits[i] else 0
  {
    if i <= 16 then bits
    else if bits[i] == 0 then Limited(bits, i - 1)
    else
      var j := NextShorter(bits, i - 2);
      if bits[i] < 2 || j < 1 then bits else Limited(Adjust(bits, i, j), i)
  }

  /** One round of the limiter: a pair of the longest codes goes. Its prefix, one bit shorter, stays for one of the two;
      the other moves beside a code of the longest length in use that is at least two bits shorter. */
  lemma LimitStep(bits: seq<nat>, i: nat, j: nat)
    requires 16 < i < |bits| && bits[i] >= 2 && 1 <= j <= i - 2 && bits[j] > 0
    requires forall l :: j < l <= i - 2 ==> bits[l] == 0
    ensures var r := Adjust(bits, i, j);
      && Limited(bits, i) == Limited(r, i)
      && r[i] == bits[i] - 2 && r[j] == bits[j] - 1
      && (if j + 1 == i - 1 then r[i - 1] == bits[i - 1] + 3
          else r[i - 1] == bits[i - 1] + 1 && r[j + 1] == bits[j + 1] + 2)
      && forall l :: 0 <= l < |bits| && l != i && l != i - 1 && l != j + 1 && l != j ==> r[l] == bits[l]
  {
    hide Limited;
    LimitUnfolds(bits, i);
  }

  lemma LimitUnfolds(bits: seq<nat>, i: nat)
    requires 16 < i < |bits| && bits[i] >= 2 && NextShorter(bits, i - 2) >= 1
    ensures Limited(bits, i) == Limited(Adjust(bits, i, NextShorter(bits, i - 2)), i)
  {
    hide Adjust;
  }

  /** The limiter of section K.2. */
  method LimitLengths(bits: array<nat>)
    requires Complete(bits[..]) && Sum(bits[..]) <= 255
    modifies bits
    ensures bits[..] == Limited(old(bits[..]), MAX_CLEN)
    ensures Complete(bits[..]) && Sum(bits[..]) == Sum(old(bits[..])) && NothingAbove(bits[..], 16)
    ensures NothingAbove(old(bits[..]), 16) ==> bits[..] == old(bits[..])
  {
    hide Sum, Pow2, KraftBits, Limited, Complete, NothingAbove;
    var i := MAX_CLEN;
    NothingLonger(bits[..]);
    while i > 16
      invariant 16 <= i <= MAX_CLEN == bits.Length - 1 && Complete(bits[..]) && NothingAbove(bits[..], i)
      invariant Sum(bits[..]) == Sum(old(bits[..])) && Limited(bits[..], i) == Limited(old(bits[..]), MAX_CLEN)
      invariant NothingAbove(old(bits[..]), 16) ==> bits[..] == old(bits[..])
    {
      while bits[i] > 0
        invariant Complete(bits[..]) && NothingAbove(bits[..], i)
        invariant Sum(bits[..]) == Sum(old(bits[..])) && Limited(bits[..], i) == Limited(old(bits[..]), MAX_CLEN)
        invariant NothingAbove(old(bits[..]), 16) ==> bits[..] == old(bits[..])
        decreases bits[i]
      {
        NoneLeft(old(bits[..]), i);
        AdjustOnce(bits, i);
      }
      LimitedNext(bits[..], i);
      i := i - 1;
    }
    LimitedNext(bits[..], i);
  }

  /** One adjustment of codes of length i, the longest. */
  method AdjustOnce(bits: array<nat>, i: nat)
    requires Complete(bits[..]) && Sum(bits[..]) <= 255 && 16 < i <= MAX_CLEN == bits.Length - 1
    requires NothingAbove(bits[..], i) && bits[i] > 0
    modifies bits
    ensures Complete(bits[..]) && Sum(bits[..]) == Sum(old(bits[..])) && NothingAbove(bits[..], i)
    ensures Limited(bits[..], i) == Limited(old(bits[..]), i) && bits[i] < old(bits[i])
  {
    hide Sum, Pow2, KraftBits, Limited, NextShorter, Adjust, Complete, NothingAbove;
    ghost var before := bits[..];
    var j := FindShorter(bits, i);
    assert before[i] >= 2 && before[j] >= 1 by { LongestCountEven(before, i); }
    LimitedStep(before, i, j);
    AdjustKeeps(before, i, j);
    AdjustShape(before, i, j);
    StoreAdjusted(bits, i, j);
  }

  /** The search for the shorter code to split. */
  method FindShorter(bits: array<nat>, i: nat) returns (j: nat)
    requires Complete(bits[..]) && Sum(bits[..]) <= 255 && 16 < i <= MAX_CLEN == bits.Length - 1
    requires NothingAbove(bits[..], i)
    ensures 1 <= j <= i - 2 && bits[j] > 0 && j == NextShorter(bits[..], i - 2)
  {
    hide Sum, Pow2, KraftBits, NextShorter;
    ghost var w := ShorterExists(bits[..], i);
    j := i - 2;
    while bits[j] == 0
      invariant 1 <= w <= j <= i - 2 && NextShorter(bits[..], i - 2) == NextShorter(bits[..], j)
      decreases j
    {
      ShorterNext(bits[..], j);
      j := j - 1;
    }
    ShorterNext(bits[..], j);
  }

  /** The four updates; bits[] holds single bytes, which the counts never exceed. */
  method StoreAdjusted(bits: array<nat>, i: nat, j: nat)
    requires 1 <= j && j + 2 <= i < bits.Length && bits[i] >= 2 && bits[j] >= 1
    requires Sum(bits[..]) <= 255 && Sum(Adjust(bits[..], i, j)) <= 255
    modifies bits
    ensures bits[..] == Adjust(old(bits[..]), i, j)
  {
    hide Sum;
    ghost var before := bits[..];
    EachAtMostSum(before);
    EachAtMostSum(Adjust(before, i, j));
    assert Adjust(before, i, j)[i - 1] <= 255 && Adjust(before, i, j)[j + 1] <= 255;
    bits[i] := (bits[i] - 2) % 256;
    bits[i - 1] := (bits[i - 1] + 1) % 256;
    bits[j + 1] := (bits[j + 1] + 2) % 256;
    bits[j] := (bits[j] - 1) % 256;
    assert bits[..] == Adjust(before, i, j);
  }

  lemma AdjustShape(bits: seq<nat>, i: nat, j: nat)
    requires 1 <= j && j + 2 <= i < |bits| && bits[i] >= 2 && bits[j] >= 1
    ensures NothingAbove(bits, i) ==> NothingAbove(Adjust(bits, i, j), i)
    ensures Adjust(bits, i, j)[i] == bits[i] - 2
  {
  }

  lemma NothingLonger(bits: seq<nat>)
    ensures Complete(bits) ==> |bits| == MAX_CLEN + 1 && NothingAbove(bits, MAX_CLEN)
  {
  }

  lemma NoneLeft(bits: seq<nat>, i: nat)
    ensures 16 < i < |bits| && bits[i] > 0 ==> !NothingAbove(bits, 16)
  {
  }

  lemma LimitedNext(bits: seq<nat>, i: nat)
    requires i < |bits|
    ensures i <= 16 ==> Limited(bits, i) == bits
    ensures 16 < i && bits[i] == 0 ==> Limited(bits, i) == Limited(bits, i - 1)
    ensures 16 < i && bits[i] == 0 && NothingAbove(bits, i) ==> NothingAbove(bits, i - 1)
  {
  }

  lemma LimitedStep(bits: seq<nat>, i: nat, j: nat)
    requires 16 < i < |bits| && bits[i] >= 2 && 1 <= j == NextShorter(bits, i - 2)
    ensures Limited(bits, i) == Limited(Adjust(bits, i, j), i)
  {
  }

  lemma ShorterNext(bits: seq<nat>, j: nat)
    requires 0 < j < |bits|
    ensures NextShorter(bits, j) == if bits[j] > 0 then j else NextShorter(bits, j - 1)
  {
  }

  lemma EachAtMostSum(bits: seq<nat>)
    ensures forall l :: 0 <= l < |bits| ==> bits[l] <= Sum(bits)
  {
    forall l | 0 <= l < |bits| ensures bits[l] <= Sum(bits) {
      SumMember(bits, l);
    }
  }

  /** Remove the pseudo-symbol's code from the largest length in use. */
  method RemoveLongest(bits: array<nat>) returns (i: nat)
    requires Complete(bits[..]) && NothingAbove(bits[..], 16) && Sum(bits[..]) >= 1
    modifies bits
    ensures 1 <= i <= 16 && old(bits[i]) > 0 && NothingAbove(old(bits[..]), i)
    ensures bits[..] == old(bits[..])[i := old(bits[i]) - 1]
  {
    hide Sum, Pow2, KraftBits;
    ghost var w := SomeUsed(bits[..]);
    i := 16;
    while bits[i] == 0
      invariant 1 <= w <= i <= 16 && NothingAbove(bits[..], i)
      decreases i
    {
      i := i - 1;
    }
    bits[i] := bits[i] - 1;
  }

  lemma SomeUsed(bits: seq<nat>) returns (w: nat)
    requires Complete(bits) && NothingAbove(bits, 16) && Sum(bits) >= 1
    ensures 1 <= w <= 16 && bits[w] > 0
  {
    if forall l :: 0 <= l < |bits| ==> bits[l] == 0 {
      SumZero(bits);
    }
    w :| 0 <= w < |bits| && bits[w] > 0;
  }

  /** What remains leaves the all-ones code of the longest length unused. */
  lemma RemovedLeavesRoom(bits: seq<nat>, i: nat)
    requires Complete(bits) && NothingAbove(bits, 16) && 1 <= i <= 16 && bits[i] > 0
    ensures var r := bits[i := bits[i] - 1][..17];
      KraftBits(r, 16) == Pow2(16) - Pow2(16 - i) && Sum(r) == Sum(bits) - 1
  {
    hide Sum, Pow2;
    KraftRescale(bits, 16, MAX_CLEN);
    Pow2Add(16, 16);
    assert MAX_CLEN - 16 == 16;
    Cancel(KraftBits(bits, 16), Pow2(16), Pow2(16));
    KraftUpdate(bits, 16, i, bits[i] - 1);
    var b := bits[i := bits[i] - 1];
    DropZeros(b, 17);
    DropZeros(KraftTerms(b, 16), 17);
    assert KraftTerms(b, 16)[..17] == KraftTerms(b[..17], 16);
  }

  lemma {:induction false} DropZeros(s: seq<int>, n: nat)
    requires n <= |s| && forall l :: n <= l < |s| ==> s[l] == 0
    ensures Sum(s[..n]) == Sum(s)
  {
    if n == |s| {
      assert s[..n] == s;
    } else {
      DropZeros(s[..|s| - 1], n);
      assert s[..|s| - 1][..n] == s[..n];
    }
  }
}
