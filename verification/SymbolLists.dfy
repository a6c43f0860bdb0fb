/** Symbols sorted by code length, as the generated table lists them. */
module SymbolLists {
  import opened HuffmanTree
  import opened CodeLengths

  /** The symbols below n of length l, in increasing order. */
  function OfLength(size: seq<nat>, l: nat, n: nat): seq<nat>
    requires n <= |size|
  {
    if n == 0 then [] else OfLength(size, l, n - 1) + if size[n - 1] == l then [n - 1] else []
  }

  lemma OfLengthIs(size: seq<nat>, l: nat, n: nat)
    requires n <= |size|
    ensures var r := OfLength(size, l, n);
      && (forall k :: 0 <= k < |r| ==> r[k] < n && size[r[k]] == l)
      && (forall i, j :: 0 <= i < j < |r| ==> r[i] < r[j])
      && (forall s :: 0 <= s < n && size[s] == l ==> s in r)
      && |r| == multiset(size[..n])[l]
  {
    hide OfLength;
    OfLengthMembers(size, l, n);
    OfLengthCount(size, l, n);
    forall s | 0 <= s < n && size[s] == l ensures s in OfLength(size, l, n) {
      OfLengthHas(size, l, n, s);
    }
  }

  ghost predicate Members(size: seq<nat>, r: seq<nat>, l: nat, n: nat)
    requires n <= |size|
  {
    && (forall k :: 0 <= k < |r| ==> r[k] < n && size[r[k]] == l)
    && (forall i, j :: 0 <= i < j < |r| ==> r[i] < r[j])
  }

  lemma {:induction false} OfLengthMembers(size: seq<nat>, l: nat, n: nat)
    requires n <= |size|
    ensures Members(size, OfLength(size, l, n), l, n)
  {
    if n > 0 {
      OfLengthMembers(size, l, n - 1);
      MoreMembers(size, OfLength(size, l, n - 1), l, n - 1);
    }
  }

  lemma MoreMembers(size: seq<nat>, r: seq<nat>, l: nat, n: nat)
    requires n < |size| && Members(size, r, l, n)
    ensures Members(size, r + if size[n] == l then [n] else [], l, n + 1)
  {
  }

  lemma {:induction false} OfLengthHas(size: seq<nat>, l: nat, n: nat, s: nat)
    requires s < n <= |size| && size[s] == l
    ensures s in OfLength(size, l, n)
  {
    if s < n - 1 {
      OfLengthHas(size, l, n - 1, s);
    }
  }

  lemma {:induction false} OfLengthCount(size: seq<nat>, l: nat, n: nat)
    requires n <= |size|
    ensures |OfLength(size, l, n)| == multiset(size[..n])[l]
  {
    if n > 0 {
      OfLengthCount(size, l, n - 1);
      assert size[..n] == size[..n - 1] + [size[n - 1]];
    }
  }

  /** All symbols of lengths 1 to l, shortest first. */
  function Listing(size: seq<nat>, l: nat): seq<nat> {
    if l == 0 then [] else Listing(size, l - 1) + OfLength(size, l, |size|)
  }

  ghost predicate Within(size: seq<nat>, r: seq<nat>, l: nat) {
    forall k :: 0 <= k < |r| ==> r[k] < |size| && 1 <= size[r[k]] <= l
  }

  ghost predicate Ordered(size: seq<nat>, r: seq<nat>)
    requires forall k :: 0 <= k < |r| ==> r[k] < |size|
  {
    forall i, j :: 0 <= i < j < |r| ==>
      size[r[i]] < size[r[j]] || (size[r[i]] == size[r[j]] && r[i] < r[j])
  }

  lemma AppendOrdered(size: seq<nat>, a: seq<nat>, b: seq<nat>, l: nat)
    requires l > 0 && Within(size, a, l - 1) && Ordered(size, a)
    requires forall k :: 0 <= k < |b| ==> b[k] < |size| && size[b[k]] == l
    requires forall i, j :: 0 <= i < j < |b| ==> b[i] < b[j]
    ensures Within(size, a + b, l) && Ordered(size, a + b)
  {
    var c := a + b;
    forall k | 0 <= k < |c| ensures c[k] < |size| && 1 <= size[c[k]] <= l {
      if k >= |a| { assert c[k] == b[k - |a|]; }
    }
    forall i, j | 0 <= i < j < |c|
      ensures size[c[i]] < size[c[j]] || (size[c[i]] == size[c[j]] && c[i] < c[j])
    {
      if i >= |a| {
        assert c[i] == b[i - |a|] && c[j] == b[j - |a|];
      } else if j >= |a| {
        assert c[j] == b[j - |a|];
      }
    }
  }

  /** The listing holds each symbol with a length once, ordered by length and then number. */
  lemma {:induction false} ListingIs(size: seq<nat>, l: nat)
    ensures Within(size, Listing(size, l), l) && Ordered(size, Listing(size, l))
    ensures forall s :: 0 <= s < |size| && 1 <= size[s] <= l ==> s in Listing(size, l)
  {
    if l > 0 {
      ListingIs(size, l - 1);
      OfLengthIs(size, l, |size|);
      var a, b := Listing(size, l - 1), OfLength(size, l, |size|);
      AppendOrdered(size, a, b, l);
      assert Listing(size, l) == a + b;
    }
  }

  /** How many symbols have each length from 1 to 32. */
  ghost function Histogram(size: seq<nat>): (r: seq<nat>)
    ensures |r| == MAX_CLEN + 1
  {
    seq(MAX_CLEN + 1, l => if l == 0 then 0 else multiset(size)[l])
  }

  lemma {:induction false} ListingLength(size: seq<nat>, l: nat)
    requires l <= MAX_CLEN
    ensures |Listing(size, l)| == Sum(Histogram(size)[..l + 1])
  {
    var h := Histogram(size);
    if l > 0 {
      ListingLength(size, l - 1);
      OfLengthIs(size, l, |size|);
      assert h[..l + 1][..l] == h[..l];
      assert size[..|size|] == size;
    } else {
      assert h[..1] == [0];
    }
  }

  lemma HistogramSnoc(size: seq<nat>, s: nat)
    requires 1 <= s <= MAX_CLEN
    ensures Histogram(size + [s]) == Histogram(size)[s := Histogram(size)[s] + 1]
  {
  }

  lemma HistogramZero(size: seq<nat>)
    ensures Histogram(size + [0]) == Histogram(size)
  {
  }
}
