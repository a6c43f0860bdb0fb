/** Which blocks of an image a scan codes, and in what order: the blocks of its MCUs are fetched from
    the components' block arrays, and decoded ones are stored back. */
module Placement {
  /** The blocks of each component. */
  type Image = seq<seq<seq<int>>>

  /** The components of a scan, the component of each block of an MCU, and the block numbers. */
  datatype Slots = Slots(comps: seq<nat>, member: seq<nat>, at: seq<seq<nat>>)

  ghost predicate IsImage(image: Image) {
    forall c, b :: 0 <= c < |image| && 0 <= b < |image[c]| ==> |image[c][b]| == 64
  }

  ghost predicate SameShape(image: Image, other: Image) {
    |image| == |other| && forall c :: 0 <= c < |image| ==> |image[c]| == |other[c]|
  }

  /** The slots lie in the image, and no block has two. */
  ghost predicate Placed(p: Slots, image: Image) {
    && (forall i :: 0 <= i < |p.member| ==> p.member[i] < |p.comps|)
    && (forall k :: 0 <= k < |p.comps| ==> p.comps[k] < |image|)
    && (forall k, l :: 0 <= k < l < |p.comps| ==> p.comps[k] != p.comps[l])
    && (forall m :: 0 <= m < |p.at| ==> |p.at[m]| == |p.member|)
    && (forall m, i :: 0 <= m < |p.at| && 0 <= i < |p.member| ==> p.at[m][i] < |image[p.comps[p.member[i]]]|)
    && forall m, i, n, j ::
         0 <= m < |p.at| && 0 <= n < |p.at| && 0 <= i < |p.member| && 0 <= j < |p.member| && (m != n || i != j) ==>
           p.member[i] != p.member[j] || p.at[m][i] != p.at[n][j]
  }

  /** The MCUs of the scan. */
  function Fetch(image: Image, p: Slots): (mcus: seq<seq<seq<int>>>)
    requires Placed(p, image)
    ensures |mcus| == |p.at|
    ensures forall m :: 0 <= m < |mcus| ==> |mcus[m]| == |p.member|
    ensures forall m, i :: 0 <= m < |p.at| && 0 <= i < |p.member| ==>
              mcus[m][i] == image[p.comps[p.member[i]]][p.at[m][i]]
  {
    seq(|p.at|, m requires 0 <= m < |p.at| =>
      seq(|p.member|, i requires 0 <= i < |p.member| => image[p.comps[p.member[i]]][p.at[m][i]]))
  }

  /** The first blocks, up to block k of MCU n, are stored; components that are not in the scan stay
      as they are. */
  ghost predicate StoredTo(before: Image, after: Image, p: Slots, mcus: seq<seq<seq<int>>>, n: nat, k: nat)
    requires Placed(p, before) && |mcus| == |p.at| && forall m :: 0 <= m < |mcus| ==> |mcus[m]| == |p.member|
  {
    && SameShape(before, after) && IsImage(after)
    && (forall m, i :: 0 <= m < |p.at| && 0 <= i < |p.member| && (m < n || (m == n && i < k)) ==>
          after[p.comps[p.member[i]]][p.at[m][i]] == mcus[m][i])
    && forall c :: 0 <= c < |before| && c !in p.comps ==> after[c] == before[c]
  }

  ghost predicate Stored(before: Image, after: Image, p: Slots, mcus: seq<seq<seq<int>>>)
    requires Placed(p, before) && |mcus| == |p.at| && forall m :: 0 <= m < |mcus| ==> |mcus[m]| == |p.member|
  {
    StoredTo(before, after, p, mcus, |mcus|, 0)
  }

  lemma StoreOne(before: Image, now: Image, p: Slots, mcus: seq<seq<seq<int>>>, n: nat, k: nat)
    requires Placed(p, before) && |mcus| == |p.at| && forall m :: 0 <= m < |mcus| ==> |mcus[m]| == |p.member|
    requires StoredTo(before, now, p, mcus, n, k) && n < |p.at| && k < |p.member| && |mcus[n][k]| == 64
    ensures var c, b := p.comps[p.member[k]], p.at[n][k];
      c < |now| && b < |now[c]| && StoredTo(before, now[c := now[c][b := mcus[n][k]]], p, mcus, n, k + 1)
  {
    var c, b := p.comps[p.member[k]], p.at[n][k];
    assert b < |before[c]|;
    var next := now[c := now[c][b := mcus[n][k]]];
    forall m, i | 0 <= m < |p.at| && 0 <= i < |p.member| && (m < n || (m == n && i < k))
      ensures next[p.comps[p.member[i]]][p.at[m][i]] == mcus[m][i]
    {
      OtherSlot(p, before, n, k, m, i);
    }
  }

  lemma OtherSlot(p: Slots, image: Image, n: nat, k: nat, m: nat, i: nat)
    requires Placed(p, image) && n < |p.at| && k < |p.member| && m < |p.at| && i < |p.member| && (m != n || i != k)
    ensures p.comps[p.member[i]] != p.comps[p.member[k]] || p.at[m][i] != p.at[n][k]
  {
  }

  /** Stores the decoded MCUs. */
  method Store(before: Image, p: Slots, mcus: seq<seq<seq<int>>>) returns (after: Image)
    requires IsImage(before) && Placed(p, before) && |mcus| == |p.at|
    requires forall m :: 0 <= m < |mcus| ==> |mcus[m]| == |p.member|
    requires forall m, i :: 0 <= m < |mcus| && 0 <= i < |p.member| ==> |mcus[m][i]| == 64
    ensures Stored(before, after, p, mcus)
  {
    after := before;
    for m := 0 to |mcus|
      invariant StoredTo(before, after, p, mcus, m, 0)
    {
      for i := 0 to |p.member|
        invariant StoredTo(before, after, p, mcus, m, i)
      {
        hide IsImage;
        StoreOne(before, after, p, mcus, m, i);
        var c, b := p.comps[p.member[i]], p.at[m][i];
        after := after[c := after[c][b := mcus[m][i]]];
      }
      NextRow(before, after, p, mcus, m);
    }
  }

  lemma NextRow(before: Image, now: Image, p: Slots, mcus: seq<seq<seq<int>>>, n: nat)
    requires Placed(p, before) && |mcus| == |p.at| && forall m :: 0 <= m < |mcus| ==> |mcus[m]| == |p.member|
    requires StoredTo(before, now, p, mcus, n, |p.member|)
    ensures StoredTo(before, now, p, mcus, n + 1, 0)
  {
    hide IsImage, Placed;
  }
}
