/** An image under a progressive script: which blocks each scan codes, and how far a decoder knows them. */
module ScriptImage {
  import opened BandEncoder
  import opened ScanScript
  import opened ScriptDecoding
  import opened SimpleProgression
  import opened Placement

  ghost predicate InSlot(p: Slots, k: nat, b: nat) {
    exists m, i ::
      0 <= m < |p.at| && 0 <= i < |p.member| && |p.at[m]| == |p.member| && p.member[i] == k && p.at[m][i] == b
  }

  /** The slots serve scan x: every real block of its components has one. Only DC scans may interleave
      components, and so code blocks that merely fill up an MCU. */
  ghost predicate Serves(p: Slots, x: Scan, image: Image, actual: seq<set<nat>>)
    requires |x.component_index| == MAX_COMPS_IN_SCAN
  {
    && Placed(p, image) && |actual| == |image| && |p.comps| == x.comps_in_scan <= MAX_COMPS_IN_SCAN
    && (forall k :: 0 <= k < |p.comps| ==> p.comps[k] == x.component_index[k])
    && (forall k, b :: 0 <= k < |p.comps| && b in actual[p.comps[k]] ==> InSlot(p, k, b))
    && (x.Ss > 0 ==>
          forall m, i :: 0 <= m < |p.at| && 0 <= i < |p.member| ==> p.at[m][i] in actual[p.comps[p.member[i]]])
  }

  /** The real blocks of the image are known as far as the script has sent them. */
  ghost predicate KnownSoFar(script: seq<Scan>, image: Image, actual: seq<set<nat>>, order: seq<nat>, now: Image)
    requires Entries(script)
  {
    && IsOrder(order) && SameShape(image, now) && IsImage(image) && IsImage(now) && |actual| == |image|
    && forall c, b :: 0 <= c < |image| && 0 <= b < |image[c]| && b in actual[c] ==>
         Zigzag(now[c][b], order) == DecodedBy(script, c, Zigzag(image[c][b], order))
  }

  /** Before the first scan, cleared blocks. */
  lemma NothingKnown(image: Image, actual: seq<set<nat>>, order: seq<nat>, now: Image)
    requires IsImage(image) && SameShape(image, now) && |actual| == |image| && IsOrder(order)
    requires forall c, b :: 0 <= c < |now| && 0 <= b < |now[c]| ==> now[c][b] == seq(64, _ => 0)
    ensures Entries([]) && KnownSoFar([], image, actual, order, now)
  {
    forall c, b | 0 <= c < |image| && 0 <= b < |image[c]|
      ensures Zigzag(now[c][b], order) == DecodedBy([], c, Zigzag(image[c][b], order))
    {
      assert now[c][b] == seq(64, _ => 0);
    }
  }

  /** The block decoded in a slot; if it is a real one, it is known as far as the script has sent it. */
  ghost predicate SlotKnown(script: seq<Scan>, p: Slots, image: Image, actual: seq<set<nat>>, order: seq<nat>,
                            result: seq<seq<seq<int>>>, m: nat, i: nat)
    requires Entries(script) && Placed(p, image) && IsImage(image) && |actual| == |image| && IsOrder(order)
    requires |result| == |p.at| && m < |result| && |result[m]| == |p.member| && i < |p.member|
  {
    var c, b := p.comps[p.member[i]], p.at[m][i];
    assert b < |image[c]|;
    && |result[m][i]| == 64
    && (b in actual[c] ==> Zigzag(result[m][i], order) == DecodedBy(script, c, Zigzag(image[c][b], order)))
  }

  ghost predicate AllKnown(script: seq<Scan>, p: Slots, image: Image, actual: seq<set<nat>>, order: seq<nat>,
                           result: seq<seq<seq<int>>>)
    requires Entries(script)
  {
    && Placed(p, image) && IsImage(image) && |actual| == |image| && IsOrder(order)
    && |result| == |p.at| && (forall m :: 0 <= m < |result| ==> |result[m]| == |p.member|)
    && forall m, i :: 0 <= m < |result| && 0 <= i < |p.member| ==>
        SlotKnown(script, p, image, actual, order, result, m, i)
  }

  /** A real block of a component in the scan is known one scan further ... */
  lemma NamedBlock(script: seq<Scan>, x: Scan, p: Slots, image: Image, actual: seq<set<nat>>, order: seq<nat>,
                   now: Image, result: seq<seq<seq<int>>>, after: Image, c: nat, k: nat, b: nat)
    requires Entries(script) && |x.component_index| == MAX_COMPS_IN_SCAN && Serves(p, x, image, actual)
    requires Placed(p, now)
    requires Entries(script + [x]) && AllKnown(script + [x], p, image, actual, order, result)
    requires Stored(now, after, p, result)
    requires KnownSoFar(script, image, actual, order, now)
    requires k < |p.comps| && p.comps[k] == c < |image| && b < |image[c]| && b in actual[c]
    ensures Zigzag(after[c][b], order) == DecodedBy(script + [x], c, Zigzag(image[c][b], order))
  {
    hide Zigzag, IsOrder, DecodedBy, StoredTo, Placed, SameShape;
    assert InSlot(p, k, b);
    var m, i :| 0 <= m < |p.at| && 0 <= i < |p.member| && |p.at[m]| == |p.member| && p.member[i] == k &&
      p.at[m][i] == b;
    SlotHolds(now, after, p, result, m, i);
    assert SlotKnown(script + [x], p, image, actual, order, result, m, i);
  }

  lemma SlotHolds(before: Image, after: Image, p: Slots, mcus: seq<seq<seq<int>>>, m: nat, i: nat)
    requires Placed(p, before) && |mcus| == |p.at| && forall m :: 0 <= m < |mcus| ==> |mcus[m]| == |p.member|
    requires Stored(before, after, p, mcus) && m < |p.at| && i < |p.member|
    ensures var c, b := p.comps[p.member[i]], p.at[m][i]; c < |after| && b < |after[c]| && after[c][b] == mcus[m][i]
  {
    hide IsImage;
    assert p.at[m][i] < |before[p.comps[p.member[i]]]|;
  }

  lemma NotNamed(p: Slots, x: Scan, image: Image, actual: seq<set<nat>>, c: int)
    requires |x.component_index| == MAX_COMPS_IN_SCAN && Serves(p, x, image, actual) && !HasComponent(x, c)
    ensures c !in p.comps
  {
  }

  /** ... and one of another component is as before. */
  lemma OtherBlock(script: seq<Scan>, x: Scan, p: Slots, image: Image, actual: seq<set<nat>>, order: seq<nat>,
                   now: Image, result: seq<seq<seq<int>>>, after: Image, c: nat, b: nat)
    requires Entries(script) && |x.component_index| == MAX_COMPS_IN_SCAN && !HasComponent(x, c)
    requires KnownSoFar(script, image, actual, order, now) && Serves(p, x, image, actual) && Placed(p, now)
    requires |result| == |p.at| && (forall m :: 0 <= m < |result| ==> |result[m]| == |p.member|)
    requires Stored(now, after, p, result)
    requires c < |image| && b < |image[c]| && b in actual[c]
    ensures Entries(script + [x])
    ensures Zigzag(after[c][b], order) == DecodedBy(script + [x], c, Zigzag(image[c][b], order))
  {
    hide Zigzag, IsOrder, DecodedBy, Placed;
    OthersUntouched(script, x, c, Zigzag(image[c][b], order));
    NotNamed(p, x, image, actual, c);
    assert after[c] == now[c];
  }

  /** After the scan the image is known one scan further. */
  lemma OneScanFurther(script: seq<Scan>, x: Scan, p: Slots, image: Image, actual: seq<set<nat>>, order: seq<nat>,
                       now: Image, result: seq<seq<seq<int>>>, after: Image)
    requires Entries(script) && |x.component_index| == MAX_COMPS_IN_SCAN && Entries(script + [x])
    requires KnownSoFar(script, image, actual, order, now) && Serves(p, x, image, actual) && Placed(p, now)
    requires AllKnown(script + [x], p, image, actual, order, result) && Stored(now, after, p, result)
    ensures KnownSoFar(script + [x], image, actual, order, after)
  {
    StoredShape(now, after, p, result);
    hide Zigzag, IsOrder, DecodedBy, Placed, Stored, StoredTo, SlotKnown;
    forall c, b | 0 <= c < |image| && 0 <= b < |image[c]| && b in actual[c]
      ensures Zigzag(after[c][b], order) == DecodedBy(script + [x], c, Zigzag(image[c][b], order))
    {
      if HasComponent(x, c) {
        var k :| 0 <= k < x.comps_in_scan && k < MAX_COMPS_IN_SCAN && x.component_index[k] == c;
        assert p.comps[k] == c;
        NamedBlock(script, x, p, image, actual, order, now, result, after, c, k, b);
      } else {
        OtherBlock(script, x, p, image, actual, order, now, result, after, c, b);
      }
    }
  }

  lemma StoredShape(before: Image, after: Image, p: Slots, mcus: seq<seq<seq<int>>>)
    requires Placed(p, before) && |mcus| == |p.at| && forall m :: 0 <= m < |mcus| ==> |mcus[m]| == |p.member|
    requires Stored(before, after, p, mcus)
    ensures SameShape(before, after) && IsImage(after)
  {
    hide IsImage, Placed;
  }

  /** The slots lie in every image of the same shape. */
  lemma StillPlaced(p: Slots, image: Image, now: Image)
    requires Placed(p, image) && SameShape(image, now)
    ensures Placed(p, now)
  {
  }

  lemma StepsPrefix(script: seq<Scan>, n: nat, k: nat)
    requires Entries(script) && StepsOk(script, n) && k < |script|
    ensures Entries(script[..k]) && StepsOk(script[..k], n) && StepOk(script[..k], script[k], n)
    ensures Entries(script[..k + 1]) && script[..k + 1] == script[..k] + [script[k]]
  {
    hide StepOk;
    forall i | 0 <= i < k ensures StepOk(script[..k][..i], script[..k][i], n) {
      assert script[..k][..i] == script[..i];
    }
  }

  /** The real blocks of the image are back. */
  ghost predicate SameBlocks(image: Image, now: Image, actual: seq<set<nat>>, order: seq<nat>) {
    && SameShape(image, now) && IsImage(image) && IsImage(now) && IsOrder(order) && |actual| == |image|
    && forall c, b :: 0 <= c < |image| && 0 <= b < |image[c]| && b in actual[c] ==>
         Zigzag(now[c][b], order) == Zigzag(image[c][b], order)
  }

  /** With a script that sends everything, such as the recommended one, the image is back. */
  lemma ExactIsWhole(script: seq<Scan>, image: Image, actual: seq<set<nat>>, order: seq<nat>, now: Image)
    requires Entries(script) && Exact(script, |image|) && KnownSoFar(script, image, actual, order, now)
    ensures SameBlocks(image, now, actual, order)
  {
    hide Composed, Zigzag, IsOrder;
  }
}
