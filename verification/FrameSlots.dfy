/** From the frame to the entropy coder: the coefficient arrays of an image, the slots of each scan, and the
    MCUs the coefficient controllers hand over, which are the blocks of those slots. */
module FrameSlots {
  import opened Numbers
  import opened McuLayout
  import opened CoefController
  import opened McuCoverage
  import opened ScanScript
  import opened ScriptImage
  import opened Placement

  // Coefficient arrays --------------------------------------------------------------------------------

  /** Blocks in a row of a component's array, which is padded to whole MCUs, and rows. */
  ghost function Stride(fr: Frame, c: Component): nat {
    MulLe(0, fr.across, c.h);
    fr.across * c.h
  }

  ghost function Rows(fr: Frame, c: Component): nat {
    MulLe(0, fr.total, c.v);
    fr.total * c.v
  }

  ghost function Size(fr: Frame, c: Component): nat {
    MulLe(0, Rows(fr, c), Stride(fr, c));
    Rows(fr, c) * Stride(fr, c)
  }

  ghost function BlockNumber(fr: Frame, c: Component, r: int, x: int): int {
    r * Stride(fr, c) + x
  }

  lemma NumberIs(fr: Frame, c: Component, r: int, x: int)
    requires GoodComponent(fr, c) && 0 <= r < Rows(fr, c) && 0 <= x < Stride(fr, c)
    ensures 0 <= BlockNumber(fr, c, r, x) < Size(fr, c)
    ensures BlockNumber(fr, c, r, x) / Stride(fr, c) == r && BlockNumber(fr, c, r, x) % Stride(fr, c) == x
  {
    Inside(r, x, Rows(fr, c), Stride(fr, c));
    ModUnique(r * Stride(fr, c) + x, Stride(fr, c), r, x);
  }

  /** Block b of a component's array. */
  ghost function ArrayBlock(fr: Frame, c: Component, b: nat): (r: seq<int>)
    requires GoodComponent(fr, c) && Stride(fr, c) > 0
    ensures |r| == 64
  {
    Padded(c, b / Stride(fr, c), b % Stride(fr, c))
  }

  lemma StridePositive(fr: Frame, c: Component)
    requires GoodComponent(fr, c) && fr.across > 0
    ensures Stride(fr, c) > 0 && c.width <= Stride(fr, c) && c.height <= Rows(fr, c)
  {
    MulLe(1, fr.across, c.h);
  }

  ghost function Array(fr: Frame, c: Component): (a: seq<seq<int>>)
    requires GoodComponent(fr, c) && Stride(fr, c) > 0
    ensures |a| == Size(fr, c) && forall b :: 0 <= b < |a| ==> a[b] == ArrayBlock(fr, c, b)
  {
    seq(Size(fr, c), b requires 0 <= b < Size(fr, c) => ArrayBlock(fr, c, b))
  }

  ghost predicate AllPositive(fr: Frame) {
    forall i :: 0 <= i < |fr.comps| ==> GoodComponent(fr, fr.comps[i]) && Stride(fr, fr.comps[i]) > 0
  }

  lemma GoodIsPositive(fr: Frame)
    requires Good(fr)
    ensures AllPositive(fr)
  {
    forall i | 0 <= i < |fr.comps| ensures Stride(fr, fr.comps[i]) > 0 {
      StridePositive(fr, fr.comps[i]);
    }
  }

  /** The image's coefficient arrays, and which of their blocks are real. */
  ghost function Arrays(fr: Frame): (image: Image)
    requires Good(fr)
    ensures AllPositive(fr) && IsImage(image) && |image| == |fr.comps|
    ensures forall i :: 0 <= i < |image| ==> image[i] == Array(fr, fr.comps[i])
  {
    GoodIsPositive(fr);
    seq(|fr.comps|, i requires 0 <= i < |fr.comps| => Array(fr, fr.comps[i]))
  }

  ghost predicate IsReal(fr: Frame, c: Component, b: int) {
    0 <= b < Size(fr, c) && Stride(fr, c) > 0 && b / Stride(fr, c) < c.height && b % Stride(fr, c) < c.width
  }

  ghost function Real(fr: Frame, c: Component): set<nat> {
    set b: nat | b < Size(fr, c) && IsReal(fr, c, b)
  }

  ghost function Actual(fr: Frame): (actual: seq<set<nat>>)
    ensures |actual| == |fr.comps| && forall i :: 0 <= i < |actual| ==> actual[i] == Real(fr, fr.comps[i])
  {
    seq(|fr.comps|, i requires 0 <= i < |fr.comps| => Real(fr, fr.comps[i]))
  }

  // Slots of a scan of one component -----------------------------------------------------------------

  ghost function SingleSlots(fr: Frame, sc: seq<nat>): (p: Slots)
    requires GoodScan(fr, sc) && |sc| == 1
    ensures var c := fr.comps[sc[0]];
      && p.comps == sc && p.member == [0] && |p.at| == c.height * c.width
      && forall m :: 0 <= m < |p.at| ==> c.width > 0 && p.at[m] == [SingleNumber(fr, c, m)]
  {
    var c := fr.comps[sc[0]];
    assert GoodComponent(fr, c);
    StridePositive(fr, c);
    WidthPositive(fr, c);
    Slots(sc, [0], seq(c.height * c.width, m requires 0 <= m < c.height * c.width => [SingleNumber(fr, c, m)]))
  }

  ghost function SingleNumber(fr: Frame, c: Component, m: nat): nat
    requires GoodComponent(fr, c) && c.width > 0
  {
    MulLe(0, m / c.width, Stride(fr, c));
    BlockNumber(fr, c, m / c.width, m % c.width)
  }

  lemma WidthPositive(fr: Frame, c: Component)
    requires GoodComponent(fr, c) && fr.across > 0 && fr.total > 0
    ensures c.width > 0 && c.height > 0
  {
    MulLe(0, fr.across - 1, c.h);
    MulLe(0, fr.total - 1, c.v);
  }

  /** Raster number m of the real blocks, by row and column. */
  lemma SingleNumberIs(fr: Frame, c: Component, m: nat)
    requires Good(fr) && GoodComponent(fr, c) && c.width > 0 && m < c.height * c.width
    ensures Stride(fr, c) > 0 && m == m / c.width * c.width + m % c.width
    ensures 0 <= m / c.width < c.height <= Rows(fr, c) && 0 <= m % c.width < c.width <= Stride(fr, c)
    ensures var b := SingleNumber(fr, c, m);
      b < Size(fr, c) && b / Stride(fr, c) == m / c.width && b % Stride(fr, c) == m % c.width
  {
    StridePositive(fr, c);
    Quotient(m, c.height, c.width);
    NumberIs(fr, c, m / c.width, m % c.width);
  }

  lemma SinglePlaced(fr: Frame, sc: seq<nat>)
    requires GoodScan(fr, sc) && |sc| == 1
    ensures Placed(SingleSlots(fr, sc), Arrays(fr))
  {
    hide Array, Real, SingleNumber, Good, GoodComponent, Stride, Size;
    GoodIsPositive(fr);
    var p, c := SingleSlots(fr, sc), fr.comps[sc[0]];
    forall m | 0 <= m < |p.at|
      ensures GoodComponent(fr, c) && c.width > 0 && p.at[m] == [SingleNumber(fr, c, m)]
      ensures p.at[m][0] < |Arrays(fr)[sc[0]]|
    {
      SingleNumberIs(fr, c, m);
    }
    forall m, n | 0 <= m < |p.at| && 0 <= n < |p.at| && m != n ensures p.at[m][0] != p.at[n][0] {
      SingleNumberIs(fr, c, m);
      SingleNumberIs(fr, c, n);
    }
  }

  /** Each real block has a slot ... */
  lemma SingleHasSlot(fr: Frame, sc: seq<nat>, b: nat)
    requires GoodScan(fr, sc) && |sc| == 1 && IsReal(fr, fr.comps[sc[0]], b)
    ensures InSlot(SingleSlots(fr, sc), 0, b)
  {
    hide SingleNumber, IsReal;
    var p, c := SingleSlots(fr, sc), fr.comps[sc[0]];
    assert GoodComponent(fr, c);
    var m := RasterNumber(fr, c, b);
    assert p.at[m][0] == b && p.member[0] == 0;
  }

  /** ... and each slot a real block. */
  lemma SingleIsReal(fr: Frame, sc: seq<nat>, m: nat)
    requires GoodScan(fr, sc) && |sc| == 1 && m < |SingleSlots(fr, sc).at|
    ensures IsReal(fr, fr.comps[sc[0]], SingleSlots(fr, sc).at[m][0])
  {
    hide SingleNumber, Size, Stride;
    assert GoodComponent(fr, fr.comps[sc[0]]);
    SingleNumberIs(fr, fr.comps[sc[0]], m);
  }

  lemma RasterNumber(fr: Frame, c: Component, b: nat) returns (m: nat)
    requires Good(fr) && GoodComponent(fr, c) && IsReal(fr, c, b)
    ensures c.width > 0 && m < c.height * c.width && SingleNumber(fr, c, m) == b
  {
    var s := Stride(fr, c);
    Quotient(b, Rows(fr, c), s);
    Inside(b / s, b % s, c.height, c.width);
    m := b / s * c.width + b % s;
    ModUnique(m, c.width, b / s, b % s);
  }

  /** What is fetched for the scan is what its controller hands over. */
  lemma SingleFetched(fr: Frame, sc: seq<nat>)
    requires GoodScan(fr, sc) && |sc| == 1
    ensures Placed(SingleSlots(fr, sc), Arrays(fr))
    ensures Fetch(Arrays(fr), SingleSlots(fr, sc)) == AllMcus(fr, sc)
  {
    hide AllMcus, Good, Array, SingleNumber, Placed;
    SinglePlaced(fr, sc);
    var p, c := SingleSlots(fr, sc), fr.comps[sc[0]];
    var f := Fetch(Arrays(fr), p);
    forall m | 0 <= m < |f| ensures m < |AllMcus(fr, sc)| && f[m] == AllMcus(fr, sc)[m] {
      SingleNumberIs(fr, c, m);
      SingleComponent(fr, sc, m / c.width, m % c.width);
      RealBlock(c, m / c.width, m % c.width);
      assert f[m] == [Arrays(fr)[sc[0]][SingleNumber(fr, c, m)]];
    }
    SingleCount(fr, sc);
  }

  lemma SingleCount(fr: Frame, sc: seq<nat>)
    requires GoodScan(fr, sc) && |sc| == 1
    ensures |AllMcus(fr, sc)| == fr.comps[sc[0]].height * fr.comps[sc[0]].width
  {
    hide AllMcus;
    assert GoodComponent(fr, fr.comps[sc[0]]);
    WidthPositive(fr, fr.comps[sc[0]]);
    SingleComponent(fr, sc, 0, 0);
  }

  // Slots of an interleaved scan ---------------------------------------------------------------------

  /** The component whose blocks stand at place p of an MCU. */
  ghost function ComponentAt(fr: Frame, sc: seq<nat>, p: nat, k: nat): (ci: nat)
    requires GoodScan(fr, sc) && k <= |sc| && p < BlocksIn(fr, sc, k)
    ensures ci < k && BlocksIn(fr, sc, ci) <= p < BlocksIn(fr, sc, ci + 1)
  {
    if p >= BlocksIn(fr, sc, k - 1) then k - 1 else ComponentAt(fr, sc, p, k - 1)
  }

  /** Row and column of the block at place p, given its component. */
  ghost function PlaceRow(fr: Frame, sc: seq<nat>, ci: nat, m: nat, p: nat): int
    requires GoodScan(fr, sc) && ci < |sc| && fr.comps[sc[ci]].h > 0
  {
    m / fr.across * fr.comps[sc[ci]].v + (p - BlocksIn(fr, sc, ci)) / fr.comps[sc[ci]].h
  }

  ghost function PlaceColumn(fr: Frame, sc: seq<nat>, ci: nat, m: nat, p: nat): int
    requires GoodScan(fr, sc) && ci < |sc| && fr.comps[sc[ci]].h > 0
  {
    m % fr.across * fr.comps[sc[ci]].h + (p - BlocksIn(fr, sc, ci)) % fr.comps[sc[ci]].h
  }

  /** A number split by units, and put together again. */
  lemma Rejoined(q: int, u: int, i: int, n: int)
    requires u > 0 && 0 <= q < n && 0 <= i < u
    ensures 0 <= q * u + i < n * u && (q * u + i) / u == q && (q * u + i) % u == i
  {
    Inside(q, i, n, u);
    ModUnique(q * u + i, u, q, i);
  }

  /** Each place of each MCU is the place of one block of the padded image. */
  lemma PlaceIs(fr: Frame, sc: seq<nat>, ci: nat, m: nat, p: nat)
    requires GoodScan(fr, sc) && ci < |sc| && m < fr.total * fr.across
    requires BlocksIn(fr, sc, ci) <= p < BlocksIn(fr, sc, ci + 1)
    ensures GoodComponent(fr, fr.comps[sc[ci]])
    ensures var c, r, x := fr.comps[sc[ci]], PlaceRow(fr, sc, ci, m, p), PlaceColumn(fr, sc, ci, m, p);
      && 0 <= r < Rows(fr, c) && 0 <= x < Stride(fr, c)
      && McuIndex(fr, sc, ci, r, x) == m && IndexInMcu(fr, sc, ci, r, x) == p
  {
    var c, q := fr.comps[sc[ci]], p - BlocksIn(fr, sc, ci);
    assert GoodComponent(fr, c);
    hide GoodScan, Good;
    Quotient(m, fr.total, fr.across);
    Rotate(1, c.h, c.v);
    Quotient(q, c.v, c.h);
    Rejoined(m / fr.across, c.v, q / c.h, fr.total);
    Rejoined(m % fr.across, c.h, q % c.h, fr.across);
  }

  /** Each block of the padded image has its place. */
  lemma PlaceOf(fr: Frame, sc: seq<nat>, ci: nat, r: int, x: int)
    requires GoodScan(fr, sc) && ci < |sc|
    requires 0 <= r < Rows(fr, fr.comps[sc[ci]]) && 0 <= x < Stride(fr, fr.comps[sc[ci]])
    ensures GoodComponent(fr, fr.comps[sc[ci]])
    ensures var m, p := McuIndex(fr, sc, ci, r, x), IndexInMcu(fr, sc, ci, r, x);
      && 0 <= m < fr.total * fr.across && 0 <= BlocksIn(fr, sc, ci) <= p < BlocksIn(fr, sc, ci + 1)
      && BlocksIn(fr, sc, ci + 1) <= BlocksIn(fr, sc, |sc|)
      && PlaceRow(fr, sc, ci, m, p) == r && PlaceColumn(fr, sc, ci, m, p) == x
  {
    var c := fr.comps[sc[ci]];
    assert GoodComponent(fr, c);
    Grows(fr, sc, 0, ci);
    Grows(fr, sc, ci + 1, |sc|);
    hide GoodScan, Good;
    Quotient(r, fr.total, c.v);
    Quotient(x, fr.across, c.h);
    Rejoined(r / c.v, fr.across, x / c.h, fr.total);
    Rejoined(r % c.v, c.h, x % c.h, c.v);
    Rotate(1, c.h, c.v);
  }

  lemma {:induction false} ComponentIs(fr: Frame, sc: seq<nat>, p: nat, ci: nat, k: nat)
    requires GoodScan(fr, sc) && ci < k <= |sc| && BlocksIn(fr, sc, ci) <= p < BlocksIn(fr, sc, ci + 1)
    ensures p < BlocksIn(fr, sc, k) && ComponentAt(fr, sc, p, k) == ci
  {
    hide BlocksIn, Good;
    Grows(fr, sc, ci + 1, k);
    if ci < k - 1 {
      ComponentIs(fr, sc, p, ci, k - 1);
    }
  }

  /** The number, in its component's array, of the block at place p of MCU m. */
  ghost function MixedNumber(fr: Frame, sc: seq<nat>, m: nat, p: nat): (b: nat)
    requires GoodScan(fr, sc) && m < fr.total * fr.across && p < BlocksIn(fr, sc, |sc|)
    ensures b < Size(fr, fr.comps[sc[ComponentAt(fr, sc, p, |sc|)]])
  {
    var ci := ComponentAt(fr, sc, p, |sc|);
    PlaceIs(fr, sc, ci, m, p);
    NumberIs(fr, fr.comps[sc[ci]], PlaceRow(fr, sc, ci, m, p), PlaceColumn(fr, sc, ci, m, p));
    BlockNumber(fr, fr.comps[sc[ci]], PlaceRow(fr, sc, ci, m, p), PlaceColumn(fr, sc, ci, m, p))
  }

  lemma Counts(fr: Frame, sc: seq<nat>)
    requires GoodScan(fr, sc)
    ensures BlocksIn(fr, sc, |sc|) >= 0 && fr.total * fr.across >= 0
  {
    Grows(fr, sc, 0, |sc|);
    MulLe(0, fr.total, fr.across);
  }

  ghost function MixedSlots(fr: Frame, sc: seq<nat>): (s: Slots)
    requires GoodScan(fr, sc)
    ensures s.comps == sc && |s.member| == BlocksIn(fr, sc, |sc|) && |s.at| == fr.total * fr.across
    ensures forall p :: 0 <= p < |s.member| ==> s.member[p] == ComponentAt(fr, sc, p, |sc|)
    ensures forall m :: 0 <= m < |s.at| ==> |s.at[m]| == |s.member|
    ensures forall m, p :: 0 <= m < |s.at| && 0 <= p < |s.member| ==> s.at[m][p] == MixedNumber(fr, sc, m, p)
  {
    Counts(fr, sc);
    var n := BlocksIn(fr, sc, |sc|);
    Slots(sc, seq(n, p requires 0 <= p < n => ComponentAt(fr, sc, p, |sc|)),
          seq(fr.total * fr.across, m requires 0 <= m < fr.total * fr.across =>
            seq(n, p requires 0 <= p < n => MixedNumber(fr, sc, m, p))))
  }

  lemma MixedNumberIs(fr: Frame, sc: seq<nat>, m: nat, p: nat)
    requires GoodScan(fr, sc) && m < fr.total * fr.across && p < BlocksIn(fr, sc, |sc|)
    ensures var ci := ComponentAt(fr, sc, p, |sc|);
      var c, r, x := fr.comps[sc[ci]], PlaceRow(fr, sc, ci, m, p), PlaceColumn(fr, sc, ci, m, p);
      && GoodComponent(fr, c) && 0 <= r < Rows(fr, c) && 0 <= x < Stride(fr, c)
      && MixedNumber(fr, sc, m, p) == BlockNumber(fr, c, r, x)
      && MixedNumber(fr, sc, m, p) / Stride(fr, c) == r && MixedNumber(fr, sc, m, p) % Stride(fr, c) == x
      && McuIndex(fr, sc, ci, r, x) == m && IndexInMcu(fr, sc, ci, r, x) == p
  {
    hide Good, BlockNumber, Rows, Stride, McuIndex, IndexInMcu, PlaceRow, PlaceColumn, BlocksIn;
    var ci := ComponentAt(fr, sc, p, |sc|);
    PlaceIs(fr, sc, ci, m, p);
    NumberIs(fr, fr.comps[sc[ci]], PlaceRow(fr, sc, ci, m, p), PlaceColumn(fr, sc, ci, m, p));
  }

  lemma MixedDistinct(fr: Frame, sc: seq<nat>, m: nat, p: nat, n: nat, q: nat)
    requires GoodScan(fr, sc) && m < fr.total * fr.across && n < fr.total * fr.across && (m != n || p != q)
    requires p < BlocksIn(fr, sc, |sc|) && q < BlocksIn(fr, sc, |sc|)
    ensures ComponentAt(fr, sc, p, |sc|) != ComponentAt(fr, sc, q, |sc|) ||
            MixedNumber(fr, sc, m, p) != MixedNumber(fr, sc, n, q)
  {
    hide Good, BlockNumber, Rows, Stride, McuIndex, IndexInMcu, PlaceRow, PlaceColumn, BlocksIn, MixedNumber;
    MixedNumberIs(fr, sc, m, p);
    MixedNumberIs(fr, sc, n, q);
  }

  ghost predicate Different(sc: seq<nat>) {
    forall i, j :: 0 <= i < j < |sc| ==> sc[i] != sc[j]
  }

  lemma MixedPlaced(fr: Frame, sc: seq<nat>)
    requires GoodScan(fr, sc) && Different(sc)
    ensures Placed(MixedSlots(fr, sc), Arrays(fr))
  {
    hide Array, MixedNumber, Good, Stride, Size, BlocksIn, ComponentAt;
    GoodIsPositive(fr);
    var s := MixedSlots(fr, sc);
    forall m, i, n, j | 0 <= m < |s.at| && 0 <= n < |s.at| && 0 <= i < |s.member| && 0 <= j < |s.member| &&
                        (m != n || i != j)
      ensures s.member[i] != s.member[j] || s.at[m][i] != s.at[n][j]
    {
      MixedDistinct(fr, sc, m, i, n, j);
    }
  }

  /** Each block of the padded image has a slot. */
  lemma MixedHasSlot(fr: Frame, sc: seq<nat>, ci: nat, b: nat)
    requires GoodScan(fr, sc) && ci < |sc| && IsReal(fr, fr.comps[sc[ci]], b)
    ensures InSlot(MixedSlots(fr, sc), ci, b)
  {
    hide Rows, Stride, McuIndex, IndexInMcu, PlaceRow, PlaceColumn, BlocksIn, MixedNumber, ComponentAt;
    var c := fr.comps[sc[ci]];
    assert GoodComponent(fr, c);
    RealIsPlaced(fr, c, b);
    var r, x := b / Stride(fr, c), b % Stride(fr, c);
    PlaceOf(fr, sc, ci, r, x);
    var m, p := McuIndex(fr, sc, ci, r, x), IndexInMcu(fr, sc, ci, r, x);
    ComponentIs(fr, sc, p, ci, |sc|);
    MixedNumberIs(fr, sc, m, p);
    assert MixedSlots(fr, sc).member[p] == ci && MixedSlots(fr, sc).at[m][p] == b;
  }

  lemma RealIsPlaced(fr: Frame, c: Component, b: nat)
    requires GoodComponent(fr, c) && IsReal(fr, c, b)
    ensures var s := Stride(fr, c);
      s > 0 && 0 <= b / s < Rows(fr, c) && 0 <= b % s < s && BlockNumber(fr, c, b / s, b % s) == b
  {
    hide Stride, Rows;
    Quotient(b, Rows(fr, c), Stride(fr, c));
  }

  lemma MixedMcuLength(fr: Frame, sc: seq<nat>, m: nat)
    requires GoodScan(fr, sc) && |sc| > 1 && m < fr.total * fr.across
    ensures |AllMcus(fr, sc)| == fr.total * fr.across && |AllMcus(fr, sc)[m]| == BlocksIn(fr, sc, |sc|)
  {
    hide AllMcus, BlocksIn, McuOf;
    Quotient(m, fr.total, fr.across);
    EntryAt(fr, sc, m / fr.across, m % fr.across);
    McuLength(fr, sc, m / fr.across, 0, m % fr.across, |sc|);
  }

  lemma MixedBlock(fr: Frame, sc: seq<nat>, m: nat, p: nat)
    requires GoodScan(fr, sc) && |sc| > 1 && m < fr.total * fr.across && p < BlocksIn(fr, sc, |sc|) && AllPositive(fr)
    ensures var c := fr.comps[sc[ComponentAt(fr, sc, p, |sc|)]];
      && m < |AllMcus(fr, sc)| && p < |AllMcus(fr, sc)[m]|
      && AllMcus(fr, sc)[m][p] == Array(fr, c)[MixedNumber(fr, sc, m, p)]
  {
    hide AllMcus, BlocksIn, Padded, MixedNumber, McuIndex, IndexInMcu, Array, BlockNumber, PlaceRow, PlaceColumn;
    MixedNumberIs(fr, sc, m, p);
    var ci := ComponentAt(fr, sc, p, |sc|);
    InterleavedAt(fr, sc, ci, PlaceRow(fr, sc, ci, m, p), PlaceColumn(fr, sc, ci, m, p));
  }

  lemma MixedCount(fr: Frame, sc: seq<nat>)
    requires GoodScan(fr, sc) && |sc| > 1
    ensures |AllMcus(fr, sc)| == fr.total * fr.across
  {
    hide AllMcus, BlocksIn;
    MulLe(1, fr.total, fr.across);
    MixedMcuLength(fr, sc, 0);
  }

  /** What is fetched for the scan is what its controller hands over. */
  lemma MixedFetched(fr: Frame, sc: seq<nat>)
    requires GoodScan(fr, sc) && |sc| > 1 && Different(sc)
    ensures Placed(MixedSlots(fr, sc), Arrays(fr))
    ensures Fetch(Arrays(fr), MixedSlots(fr, sc)) == AllMcus(fr, sc)
  {
    hide AllMcus, Good, Array, MixedNumber, Placed, BlocksIn, ComponentAt;
    MixedPlaced(fr, sc);
    var s := MixedSlots(fr, sc);
    var f, all := Fetch(Arrays(fr), s), AllMcus(fr, sc);
    MixedCount(fr, sc);
    forall m | 0 <= m < |f| ensures f[m] == all[m] {
      MixedMcuLength(fr, sc, m);
      forall p | 0 <= p < |s.member| ensures f[m][p] == all[m][p] {
        MixedBlock(fr, sc, m, p);
      }
    }
  }

  // Any scan -------------------------------------------------------------------------------------------

  ghost function SlotsOf(fr: Frame, sc: seq<nat>): Slots
    requires GoodScan(fr, sc)
  {
    if |sc| == 1 then SingleSlots(fr, sc) else MixedSlots(fr, sc)
  }

  /** Scan x is of the components sc. */
  ghost predicate ScanOf(x: Scan, sc: seq<nat>) {
    && |x.component_index| == MAX_COMPS_IN_SCAN && x.comps_in_scan == |sc| <= MAX_COMPS_IN_SCAN
    && forall i :: 0 <= i < |sc| ==> x.component_index[i] == sc[i]
  }

  lemma ScanDifferent(x: Scan, sc: seq<nat>, num_components: nat)
    requires ScanOf(x, sc) && ComponentsOk(x, num_components)
    ensures Different(sc)
  {
    forall i, j | 0 <= i < j < |sc| ensures sc[i] != sc[j] {
      IndexesAscend(x, num_components, i, j);
    }
  }

  /** The slots of every scan that may stand in a script hold all the real blocks of its components, and in an AC scan
      no others. */
  lemma SlotsServe(fr: Frame, sc: seq<nat>, x: Scan)
    requires GoodScan(fr, sc) && ScanOf(x, sc) && ComponentsOk(x, |fr.comps|) && RangesOk(x)
    ensures Serves(SlotsOf(fr, sc), x, Arrays(fr), Actual(fr))
  {
    hide Good, Array, SingleNumber, MixedNumber, Placed, InSlot, IsReal, ComponentAt, BlocksIn;
    ScanDifferent(x, sc, |fr.comps|);
    var p := SlotsOf(fr, sc);
    if |sc| == 1 {
      SinglePlaced(fr, sc);
      forall m | 0 <= m < |p.at| ensures p.at[m][0] in Actual(fr)[sc[0]] {
        SingleIsReal(fr, sc, m);
        IsRealSize(fr, fr.comps[sc[0]], p.at[m][0]);
      }
    } else {
      MixedPlaced(fr, sc);
    }
    forall k, b | 0 <= k < |sc| && b in Actual(fr)[sc[k]] ensures InSlot(p, k, b) {
      if |sc| == 1 {
        SingleHasSlot(fr, sc, b);
      } else {
        MixedHasSlot(fr, sc, k, b);
      }
    }
  }

  lemma IsRealSize(fr: Frame, c: Component, b: nat)
    ensures b in Real(fr, c) <==> IsReal(fr, c, b)
  {
  }

  /** In every mode and under any suspensions, a pass over the scan hands the entropy coder the blocks of its slots. */
  lemma SlotsFetched(fr: Frame, sc: seq<nat>)
    requires GoodScan(fr, sc) && Different(sc)
    ensures Placed(SlotsOf(fr, sc), Arrays(fr))
    ensures Fetch(Arrays(fr), SlotsOf(fr, sc)) == AllMcus(fr, sc)
  {
    hide AllMcus, Good, Array, Placed;
    if |sc| == 1 {
      SingleFetched(fr, sc);
    } else {
      MixedFetched(fr, sc);
    }
  }
}
