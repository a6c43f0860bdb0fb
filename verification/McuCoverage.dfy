/** Every block of the image is coded, in its place: the MCUs of a scan described from the frame alone. */
module McuCoverage {
  import opened Numbers
  import opened McuLayout
  import opened CoefController

  // A scan is a rectangle of MCUs ------------------------------------------------------------------

  /** The real blocks of a single component, or the MCUs of an interleaved scan. */
  ghost function Width(fr: Frame, sc: seq<nat>): nat
    requires GoodScan(fr, sc)
  {
    if |sc| == 1 then fr.comps[sc[0]].width else fr.across
  }

  ghost function Height(fr: Frame, sc: seq<nat>): nat
    requires GoodScan(fr, sc)
  {
    if |sc| == 1 then fr.comps[sc[0]].height else fr.total
  }

  ghost function Entry(fr: Frame, sc: seq<nat>, r: nat, x: nat): seq<Block>
    requires GoodScan(fr, sc)
  {
    if |sc| == 1 then [fr.comps[sc[0]].blocks(r, x)] else Mcu(fr, sc, r, 0, x)
  }

  ghost predicate InPlace(fr: Frame, sc: seq<nat>, b: seq<seq<Block>>, r: nat, x: nat)
    requires GoodScan(fr, sc)
  {
    0 <= r * Width(fr, sc) + x < |b| ==> b[r * Width(fr, sc) + x] == Entry(fr, sc, r, x)
  }

  ghost predicate Raster(fr: Frame, sc: seq<nat>, b: seq<seq<Block>>, k: int)
    requires GoodScan(fr, sc)
  {
    |b| == k && forall r: nat, x: nat :: x < Width(fr, sc) ==> InPlace(fr, sc, b, r, x)
  }

  lemma RasterNext(fr: Frame, sc: seq<nat>, b: seq<seq<Block>>, r: nat, x: nat)
    requires GoodScan(fr, sc) && x < Width(fr, sc) && Raster(fr, sc, b, r * Width(fr, sc) + x)
    ensures Raster(fr, sc, b + [Entry(fr, sc, r, x)], r * Width(fr, sc) + x + 1)
  {
    hide Entry, Width, GoodScan;
    var more, w := b + [Entry(fr, sc, r, x)], Width(fr, sc);
    forall r': nat, x': nat | x' < w ensures InPlace(fr, sc, more, r', x') {
      assert InPlace(fr, sc, b, r', x');
      if r' * w + x' == r * w + x {
        ModUnique(r * w + x, w, r, x);
        ModUnique(r' * w + x', w, r', x');
      }
    }
  }

  lemma NoRaster(fr: Frame, sc: seq<nat>, b: seq<seq<Block>>)
    requires GoodScan(fr, sc) && |b| == 0
    ensures Raster(fr, sc, b, 0)
  {
  }

  /** Row y of iMCU row n, among all rows. */
  ghost function RowAt(fr: Frame, sc: seq<nat>, n: nat, y: nat): nat
    requires GoodScan(fr, sc)
  {
    MulLe(0, n, fr.comps[sc[0]].v);
    if |sc| == 1 then n * fr.comps[sc[0]].v + y else n + y
  }

  lemma OneBlock(c: Component, r: int, x: int)
    requires c.h > 0 && r < c.height && x < c.width
    ensures RowsOf(c, r, x, 1, 1) == [c.blocks(r, x)]
  {
    assert RowsOf(c, r, x, 1, 0) == [];
    RowNext(c, r, x, 0);
  }

  lemma McuIsEntry(fr: Frame, sc: seq<nat>, n: nat, y: nat, x: nat)
    requires GoodScan(fr, sc) && n < fr.total && y < MCURows(fr, sc, n) && x < Width(fr, sc)
    ensures Mcu(fr, sc, n, y, x) == Entry(fr, sc, RowAt(fr, sc, n, y), x)
  {
    hide RowsOf;
    if |sc| == 1 {
      var c := fr.comps[sc[0]];
      assert GoodComponent(fr, c);
      RealRows(fr, c, n, 0);
      RealRows(fr, c, n, y);
      OneBlock(c, n * c.v + y, x);
      assert McuOf(fr, sc, n, y, x, 0) == [];
    }
  }

  lemma {:induction false} RasterBefore(fr: Frame, sc: seq<nat>, n: nat, y: nat, x: nat)
    requires GoodScan(fr, sc) && n < fr.total && y <= MCURows(fr, sc, n) && x <= Width(fr, sc)
    requires y == MCURows(fr, sc, n) ==> x == 0
    ensures Raster(fr, sc, Before(fr, sc, n, y, x), RowAt(fr, sc, n, y) * Width(fr, sc) + x)
    decreases n, y, x
  {
    hide Raster, Mcu, Good, Entry;
    var w := Width(fr, sc);
    if x > 0 {
      RasterBefore(fr, sc, n, y, x - 1);
      McuIsEntry(fr, sc, n, y, x - 1);
      RasterNext(fr, sc, Before(fr, sc, n, y, x - 1), RowAt(fr, sc, n, y), x - 1);
    } else if y > 0 {
      RasterBefore(fr, sc, n, y - 1, w);
      Distribute(RowAt(fr, sc, n, y - 1), 1, w);
    } else if n > 0 {
      RasterBefore(fr, sc, n - 1, MCURows(fr, sc, n - 1), 0);
      Distribute(n - 1, 1, fr.comps[sc[0]].v);
    } else {
      NoRaster(fr, sc, []);
    }
  }

  lemma AllRaster(fr: Frame, sc: seq<nat>)
    requires GoodScan(fr, sc)
    ensures Raster(fr, sc, AllMcus(fr, sc), Height(fr, sc) * Width(fr, sc))
  {
    hide Mcu, Raster;
    var c, n := fr.comps[sc[0]], fr.total - 1;
    assert GoodComponent(fr, c);
    Remainder(c.height, c.v, fr.total);
    RasterBefore(fr, sc, n, MCURows(fr, sc, n), 0);
    assert RowAt(fr, sc, n, MCURows(fr, sc, n)) == Height(fr, sc);
  }

  lemma Inside(r: int, x: int, height: int, width: int)
    requires 0 <= r < height && 0 <= x < width
    ensures 0 <= r * width + x < height * width
  {
    MulLe(0, r, width);
    MulLe(r + 1, height, width);
    Distribute(r, 1, width);
  }

  lemma EntryAt(fr: Frame, sc: seq<nat>, r: nat, x: nat)
    requires GoodScan(fr, sc) && r < Height(fr, sc) && x < Width(fr, sc)
    ensures |AllMcus(fr, sc)| == Height(fr, sc) * Width(fr, sc)
    ensures 0 <= r * Width(fr, sc) + x < |AllMcus(fr, sc)|
    ensures AllMcus(fr, sc)[r * Width(fr, sc) + x] == Entry(fr, sc, r, x)
  {
    hide AllMcus, Good, Height, Width, Entry;
    AllRaster(fr, sc);
    Inside(r, x, Height(fr, sc), Width(fr, sc));
    assert InPlace(fr, sc, AllMcus(fr, sc), r, x);
  }

  /** A scan of one component hands over each of its real blocks once, in raster order, and nothing else:
      whatever its sampling factors. */
  lemma SingleComponent(fr: Frame, sc: seq<nat>, r: nat, x: nat)
    requires GoodScan(fr, sc) && |sc| == 1 && r < fr.comps[sc[0]].height && x < fr.comps[sc[0]].width
    ensures var c := fr.comps[sc[0]];
      && |AllMcus(fr, sc)| == c.height * c.width
      && 0 <= r * c.width + x < |AllMcus(fr, sc)|
      && AllMcus(fr, sc)[r * c.width + x] == [c.blocks(r, x)]
  {
    hide AllMcus, Good;
    EntryAt(fr, sc, r, x);
  }

  // Inside an interleaved MCU ----------------------------------------------------------------------

  lemma {:induction false} RowsAt(c: Component, r: int, x0: int, w: nat, k: nat, i: nat, j: nat)
    requires c.h > 0 && i < k && j < w
    ensures 0 <= i * w + j < |RowsOf(c, r, x0, w, k)|
    ensures RowsOf(c, r, x0, w, k)[i * w + j] == Padded(c, r + i, x0 + j)
  {
    hide Padded;
    Inside(i, j, k, w);
    Distribute(k - 1, 1, w);
    if i < k - 1 {
      RowsAt(c, r, x0, w, k - 1, i, j);
    }
  }

  lemma {:induction false} McuAt(fr: Frame, sc: seq<nat>, n: nat, x: nat, k: nat, ci: nat, i: nat, j: nat)
    requires GoodScan(fr, sc) && |sc| > 1 && ci < k <= |sc| && i < fr.comps[sc[ci]].v && j < fr.comps[sc[ci]].h
    ensures var c, p := fr.comps[sc[ci]], BlocksIn(fr, sc, ci) + (i * fr.comps[sc[ci]].h + j);
      && 0 <= p < |McuOf(fr, sc, n, 0, x, k)|
      && McuOf(fr, sc, n, 0, x, k)[p] == Padded(c, n * c.v + i, x * c.h + j)
  {
    hide Padded, RowsOf, Good, BlocksIn;
    var c := fr.comps[sc[ci]];
    if ci == k - 1 {
      McuLength(fr, sc, n, 0, x, ci);
      RowsAt(c, n * c.v, x * c.h, c.h, c.v, i, j);
    } else {
      McuAt(fr, sc, n, x, k - 1, ci, i, j);
    }
  }

  lemma Quotient(r: int, n: int, u: int)
    requires u > 0 && 0 <= r < n * u
    ensures 0 <= r / u < n && r == r / u * u + r % u && 0 <= r % u < u
  {
    if r / u >= n { MulLe(n, r / u, u); }
    if r / u < 0 { MulLe(r / u, -1, u); }
  }

  /** A block holding nothing but a DC value. */
  ghost predicate Flat(b: Block, dc: int) {
    b[0] == dc && forall k :: 0 < k < 64 ==> b[k] == 0
  }

  /** Where a scan of several components hands over block column x of block row r of its component ci. */
  ghost function McuIndex(fr: Frame, sc: seq<nat>, ci: nat, r: int, x: int): int
    requires GoodScan(fr, sc) && ci < |sc| && fr.comps[sc[ci]].v > 0 && fr.comps[sc[ci]].h > 0
  {
    r / fr.comps[sc[ci]].v * fr.across + x / fr.comps[sc[ci]].h
  }

  ghost function IndexInMcu(fr: Frame, sc: seq<nat>, ci: nat, r: int, x: int): int
    requires GoodScan(fr, sc) && ci < |sc| && fr.comps[sc[ci]].v > 0 && fr.comps[sc[ci]].h > 0
  {
    BlocksIn(fr, sc, ci) + (r % fr.comps[sc[ci]].v * fr.comps[sc[ci]].h + x % fr.comps[sc[ci]].h)
  }

  lemma InterleavedAt(fr: Frame, sc: seq<nat>, ci: nat, r: int, x: int)
    requires GoodScan(fr, sc) && |sc| > 1 && ci < |sc|
    requires 0 <= r < fr.total * fr.comps[sc[ci]].v && 0 <= x < fr.across * fr.comps[sc[ci]].h
    ensures GoodComponent(fr, fr.comps[sc[ci]])
    ensures var all, m, p := AllMcus(fr, sc), McuIndex(fr, sc, ci, r, x), IndexInMcu(fr, sc, ci, r, x);
      && |all| == fr.total * fr.across && 0 <= m < |all|
      && |all[m]| == BlocksIn(fr, sc, |sc|) && 0 <= p < |all[m]|
      && all[m][p] == Padded(fr.comps[sc[ci]], r, x)
  {
    hide AllMcus, BlocksIn, Padded, McuOf;
    var c := fr.comps[sc[ci]];
    assert GoodComponent(fr, c);
    Quotient(r, fr.total, c.v);
    Quotient(x, fr.across, c.h);
    EntryAt(fr, sc, r / c.v, x / c.h);
    McuLength(fr, sc, r / c.v, 0, x / c.h, |sc|);
    McuAt(fr, sc, r / c.v, x / c.h, |sc|, ci, r % c.v, x % c.h);
  }

  /** The place before, in the same MCU: the block to the left, or the end of the block row above. */
  ghost function RowBefore(c: Component, r: int, x: int): int
    requires c.h > 0
  {
    if x % c.h > 0 then r else r - 1
  }

  ghost function ColumnBefore(c: Component, x: int): int
    requires c.h > 0
  {
    if x % c.h > 0 then x - 1 else x + c.h - 1
  }

  lemma PlaceLeft(x: int, h: int)
    requires h > 0 && x % h > 0
    ensures (x - 1) / h == x / h && (x - 1) % h == x % h - 1
  {
    ModUnique(x - 1, h, x / h, x % h - 1);
  }

  lemma PlaceAbove(r: int, x: int, v: int, h: int)
    requires v > 0 && h > 0 && x % h == 0 && r % v > 0
    ensures (r - 1) / v == r / v && (x + h - 1) / h == x / h
    ensures 0 < r % v * h && (r - 1) % v * h + (x + h - 1) % h == r % v * h - 1
  {
    PlaceLeft(r, v);
    ModUnique(x + h - 1, h, x / h, h - 1);
    Distribute(r % v - 1, 1, h);
    MulLe(1, r % v, h);
  }

  lemma PlaceBefore(r: int, x: int, r': int, x': int, v: int, h: int)
    requires v > 0 && h > 0 && 0 <= r && 0 <= x && (x % h > 0 || r % v > 0)
    requires r' == (if x % h > 0 then r else r - 1) && x' == (if x % h > 0 then x - 1 else x + h - 1)
    ensures r % v * h + x % h > 0 && 0 <= r' <= r && 0 <= x'
    ensures r' / v == r / v && x' / h == x / h && r' % v * h + x' % h == r % v * h + x % h - 1
  {
    if x % h > 0 {
      PlaceLeft(x, h);
      MulLe(0, r % v, h);
    } else {
      PlaceAbove(r, x, v, h);
    }
  }

  lemma StaysAcross(x: int, h: int, across: int)
    requires h > 0 && 0 <= x < across * h && x % h == 0
    ensures x + h - 1 < across * h
  {
    Quotient(x, across, h);
    MulLe(x / h + 1, across, h);
    Distribute(x / h, 1, h);
  }

  lemma IndexBefore(fr: Frame, sc: seq<nat>, ci: nat, r: int, x: int)
    requires GoodScan(fr, sc) && ci < |sc| && GoodComponent(fr, fr.comps[sc[ci]])
    requires var c := fr.comps[sc[ci]];
      c.v > 0 && c.h > 0 && 0 <= r < fr.total * c.v && 0 <= x < fr.across * c.h && (x % c.h > 0 || r % c.v > 0)
    ensures var c := fr.comps[sc[ci]];
      var r', x' := RowBefore(c, r, x), ColumnBefore(c, x);
      && McuIndex(fr, sc, ci, r', x') == McuIndex(fr, sc, ci, r, x)
      && IndexInMcu(fr, sc, ci, r', x') == IndexInMcu(fr, sc, ci, r, x) - 1 >= BlocksIn(fr, sc, ci)
      && 0 <= r' < fr.total * c.v && 0 <= x' < fr.across * c.h
  {
    hide BlocksIn, Good, GoodComponent;
    var c := fr.comps[sc[ci]];
    PlaceBefore(r, x, RowBefore(c, r, x), ColumnBefore(c, x), c.v, c.h);
    if x % c.h == 0 {
      StaysAcross(x, c.h, fr.across);
    }
  }

  lemma DummyIsFlat(b: Block, dc: int)
    requires b == Dummy(dc)
    ensures Flat(b, dc)
  {
  }

  /** A dummy block is never the first of its component in the MCU. */
  lemma DummyInside(fr: Frame, c: Component, r: int, x: int)
    requires Good(fr) && GoodComponent(fr, c) && 0 <= r < fr.total * c.v && 0 <= x < fr.across * c.h
    requires r >= c.height || x >= c.width
    ensures x % c.h == 0 ==> r >= c.height && r % c.v > 0
  {
    Quotient(r, fr.total, c.v);
    Quotient(x, fr.across, c.h);
    if x % c.h == 0 {
      MulLe(x / c.h, fr.across - 1, c.h);
      MulLe(r / c.v, fr.total - 1, c.v);
    }
  }

  lemma DummyBefore(fr: Frame, c: Component, r: int, x: int)
    requires Good(fr) && GoodComponent(fr, c) && 0 <= r < fr.total * c.v && 0 <= x < fr.across * c.h
    requires r >= c.height || x >= c.width
    ensures x % c.h > 0 || r % c.v > 0
    ensures Flat(Padded(c, r, x), Padded(c, RowBefore(c, r, x), ColumnBefore(c, x))[0])
  {
    hide Padded, Flat, Dummy;
    DummyInside(fr, c, r, x);
    Quotient(x, fr.across, c.h);
    MulLe(x / c.h, fr.across - 1, c.h);
    DummyFollows(c, r, x / c.h * c.h, x / c.h, c.h, x % c.h);
    DummyIsFlat(Padded(c, r, x), Padded(c, RowBefore(c, r, x), ColumnBefore(c, x))[0]);
  }

  lemma RealBlock(c: Component, r: int, x: int)
    requires c.h > 0 && r < c.height && x < c.width
    ensures Padded(c, r, x) == c.blocks(r, x)
  {
  }

  /** The MCUs of a scan of several components tile the image padded to whole MCUs, component by component and row by
      row within each. A real block stands in its place; a dummy block holds the DC value of the block before it. */
  lemma SeveralComponents(fr: Frame, sc: seq<nat>, ci: nat, r: int, x: int)
    requires GoodScan(fr, sc) && |sc| > 1 && ci < |sc|
    requires 0 <= r < fr.total * fr.comps[sc[ci]].v && 0 <= x < fr.across * fr.comps[sc[ci]].h
    ensures GoodComponent(fr, fr.comps[sc[ci]])
    ensures var c, all := fr.comps[sc[ci]], AllMcus(fr, sc);
      var m, p := McuIndex(fr, sc, ci, r, x), IndexInMcu(fr, sc, ci, r, x);
      && |all| == fr.total * fr.across && 0 <= m < |all|
      && |all[m]| == BlocksIn(fr, sc, |sc|) && 0 <= p < |all[m]|
      && (if r < c.height && x < c.width then all[m][p] == c.blocks(r, x)
          else p > 0 && p > BlocksIn(fr, sc, ci) && Flat(all[m][p], all[m][p - 1][0]))
  {
    hide AllMcus, BlocksIn, Padded, Flat, McuIndex, IndexInMcu;
    var c := fr.comps[sc[ci]];
    InterleavedAt(fr, sc, ci, r, x);
    if r < c.height && x < c.width {
      RealBlock(c, r, x);
    } else {
      DummyBefore(fr, c, r, x);
      IndexBefore(fr, sc, ci, r, x);
      InterleavedAt(fr, sc, ci, RowBefore(c, r, x), ColumnBefore(c, x));
    }
  }
}
