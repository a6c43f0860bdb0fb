/** What an MCU is made of: the real blocks of its components, and dummy blocks with the DC value of
    the last real block where the image ends short of the MCU. */
module McuLayout {
  import opened Numbers

  type Block = b: seq<int> | |b| == 64 witness seq(64, i => 0)

  const C_MAX_BLOCKS_IN_MCU := 10

  /** Sampling factors, size in blocks, and the real blocks by row and column. */
  datatype Component = Component(h: nat, v: nat, width: nat, height: nat, blocks: (int, int) -> Block)

  /** The components, total_iMCU_rows, and the MCUs in an interleaved row. */
  datatype Frame = Frame(comps: seq<Component>, total: nat, across: nat)

  ghost predicate GoodComponent(fr: Frame, c: Component) {
    && c.h > 0 && c.v > 0
    && (fr.across - 1) * c.h < c.width <= fr.across * c.h
    && (fr.total - 1) * c.v < c.height <= fr.total * c.v
  }

  ghost predicate Good(fr: Frame) {
    fr.total > 0 && fr.across > 0 && forall i :: 0 <= i < |fr.comps| ==> GoodComponent(fr, fr.comps[i])
  }

  /** The blocks of one MCU in an interleaved scan of the first k components of sc. */
  ghost function BlocksIn(fr: Frame, sc: seq<nat>, k: nat): int
    requires k <= |sc| && forall i :: 0 <= i < |sc| ==> sc[i] < |fr.comps|
  {
    if k == 0 then 0 else BlocksIn(fr, sc, k - 1) + fr.comps[sc[k - 1]].h * fr.comps[sc[k - 1]].v
  }

  /** A scan of the components numbered sc, as per_scan_setup lets it pass. */
  ghost predicate GoodScan(fr: Frame, sc: seq<nat>) {
    && Good(fr) && 0 < |sc| <= 4 && (forall i :: 0 <= i < |sc| ==> sc[i] < |fr.comps|)
    && (|sc| > 1 ==> BlocksIn(fr, sc, |sc|) <= C_MAX_BLOCKS_IN_MCU)
  }

  // MCU sizes ----------------------------------------------------------------------------------------

  function Of(fr: Frame, sc: seq<nat>, ci: nat): Component
    requires GoodScan(fr, sc) && ci < |sc|
  {
    fr.comps[sc[ci]]
  }

  function MCUWidth(fr: Frame, sc: seq<nat>, ci: nat): nat
    requires GoodScan(fr, sc) && ci < |sc|
  {
    if |sc| == 1 then 1 else Of(fr, sc, ci).h
  }

  function MCUHeight(fr: Frame, sc: seq<nat>, ci: nat): nat
    requires GoodScan(fr, sc) && ci < |sc|
  {
    if |sc| == 1 then 1 else Of(fr, sc, ci).v
  }

  function MCUsPerRow(fr: Frame, sc: seq<nat>): nat
    requires GoodScan(fr, sc)
  {
    if |sc| == 1 then Of(fr, sc, 0).width else fr.across
  }

  /** Block rows present in the last iMCU row. */
  function LastRowHeight(c: Component): nat
    requires c.v > 0
  {
    if c.height % c.v == 0 then c.v else c.height % c.v
  }

  function LastColWidth(fr: Frame, sc: seq<nat>, ci: nat): nat
    requires GoodScan(fr, sc) && ci < |sc|
  {
    var c := Of(fr, sc, ci);
    if |sc| == 1 then 1 else if c.width % c.h == 0 then c.h else c.width % c.h
  }

  /** MCU rows in iMCU row n. */
  function MCURows(fr: Frame, sc: seq<nat>, n: nat): nat
    requires GoodScan(fr, sc)
  {
    if |sc| > 1 then 1 else if n + 1 < fr.total then Of(fr, sc, 0).v else LastRowHeight(Of(fr, sc, 0))
  }

  // What belongs where ---------------------------------------------------------------------------------

  ghost function Dummy(dc: int): Block {
    seq(64, i => 0)[0 := dc]
  }

  ghost function Least(x: int, y: int): int {
    if x <= y then x else y
  }

  /** Block column x of block row r, in an image padded to full MCUs. */
  ghost function Padded(c: Component, r: int, x: int): Block
    requires c.h > 0
  {
    if r < c.height then
      if x < c.width then c.blocks(r, x) else Dummy(c.blocks(r, c.width - 1)[0])
    else Dummy(c.blocks(c.height - 1, Least((x / c.h + 1) * c.h, c.width) - 1)[0])
  }

  ghost function RowOf(c: Component, r: int, x0: int, w: nat): (b: seq<Block>)
    requires c.h > 0
    ensures |b| == w
  {
    seq<Block>(w, i requires 0 <= i < w => Padded(c, r, x0 + i))
  }

  lemma RowNext(c: Component, r: int, x0: int, w: nat)
    requires c.h > 0
    ensures RowOf(c, r, x0, 0) == [] && RowOf(c, r, x0, w + 1) == RowOf(c, r, x0, w) + [Padded(c, r, x0 + w)]
  {
    hide Padded;
  }

  /** k rows of w blocks. */
  ghost function RowsOf(c: Component, r: int, x0: int, w: nat, k: nat): (b: seq<Block>)
    requires c.h > 0
    ensures |b| == k * w
  {
    if k == 0 then [] else RowsOf(c, r, x0, w, k - 1) + RowOf(c, r + k - 1, x0, w)
  }

  /** The blocks of the first k components in the MCU at row y, column x of iMCU row n. */
  ghost function McuOf(fr: Frame, sc: seq<nat>, n: nat, y: nat, x: nat, k: nat): seq<Block>
    requires GoodScan(fr, sc) && k <= |sc|
  {
    if k == 0 then []
    else
      var c, w := Of(fr, sc, k - 1), MCUWidth(fr, sc, k - 1);
      McuOf(fr, sc, n, y, x, k - 1) + RowsOf(c, n * c.v + y, x * w, w, MCUHeight(fr, sc, k - 1))
  }

  ghost function Mcu(fr: Frame, sc: seq<nat>, n: nat, y: nat, x: nat): seq<Block>
    requires GoodScan(fr, sc)
  {
    McuOf(fr, sc, n, y, x, |sc|)
  }

  /** All MCUs before the one at row y, column x of iMCU row n, in order. */
  ghost function Before(fr: Frame, sc: seq<nat>, n: nat, y: nat, x: nat): seq<seq<Block>>
    requires GoodScan(fr, sc)
    decreases n, y, x
  {
    if x > 0 then Before(fr, sc, n, y, x - 1) + [Mcu(fr, sc, n, y, x - 1)]
    else if y > 0 then Before(fr, sc, n, y - 1, MCUsPerRow(fr, sc))
    else if n > 0 then Before(fr, sc, n - 1, MCURows(fr, sc, n - 1), 0)
    else []
  }

  // Arithmetic ----------------------------------------------------------------------------------------

  /** The remainder counts what is left after t - 1 full multiples. */
  lemma Remainder(size: int, unit: int, t: int)
    requires unit > 0 && (t - 1) * unit < size <= t * unit
    ensures (if size % unit == 0 then unit else size % unit) == size - (t - 1) * unit
  {
    if size == t * unit {
      ModUnique(size, unit, t, 0);
    } else {
      ModUnique(size, unit, t - 1, size - (t - 1) * unit);
    }
  }

  /** The last iMCU row holds between 1 and v real block rows, and last_row_height tells how many. */
  lemma RealRows(fr: Frame, c: Component, n: nat, j: nat)
    requires Good(fr) && GoodComponent(fr, c) && n < fr.total && j < c.v
    ensures 1 <= LastRowHeight(c) <= c.v
    ensures n + 1 < fr.total || j < LastRowHeight(c) <==> n * c.v + j < c.height
  {
    Remainder(c.height, c.v, fr.total);
    if n + 1 < fr.total {
      MulLe(n + 1, fr.total - 1, c.v);
      assert (n + 1) * c.v == n * c.v + c.v;
    }
  }

  /** blockcnt counts the real blocks of a row of the MCU. */
  lemma RealColumns(fr: Frame, sc: seq<nat>, ci: nat, x: nat)
    requires GoodScan(fr, sc) && ci < |sc| && x < MCUsPerRow(fr, sc)
    ensures var c, w := Of(fr, sc, ci), MCUWidth(fr, sc, ci);
      var blockcnt := if x + 1 < MCUsPerRow(fr, sc) then w else LastColWidth(fr, sc, ci);
      1 <= blockcnt <= w && x * w + blockcnt == Least(x * w + w, c.width)
  {
    var c, w := Of(fr, sc, ci), MCUWidth(fr, sc, ci);
    assert GoodComponent(fr, c);
    if |sc| > 1 {
      Remainder(c.width, c.h, fr.across);
      if x + 1 < fr.across {
        MulLe(x + 1, fr.across - 1, c.h);
        assert (x + 1) * c.h == x * c.h + c.h;
      }
    }
  }

  /** Dimensions computed by initial_setup and per_scan_setup: whatever the sampling factors, the last
      iMCU row and the last MCU column are never empty. */
  lemma Dimensions(jpeg_size: nat, samp: nat, max_samp: nat, block_size: nat)
    requires jpeg_size > 0 && samp > 0 && max_samp > 0 && block_size > 0
    ensures jpeg_size * samp >= 0 && max_samp * block_size > 0
    ensures var t := RoundUp(jpeg_size, max_samp * block_size);
      t > 0 && (t - 1) * samp < RoundUp(jpeg_size * samp, max_samp * block_size) <= t * samp
  {
    MulLe(1, max_samp, block_size);
    var unit := max_samp * block_size;
    var t := RoundUp(jpeg_size, unit);
    RoundUpIs(jpeg_size, unit, t);
    if t <= 0 { MulLe(t, 0, unit); }
    RoundUpScaled(jpeg_size, samp, t, unit);
  }

  /** A dummy block takes the DC value of the block before it in its MCU. */
  lemma DummyFollows(c: Component, r: int, x0: int, X: int, w: nat, i: nat)
    requires c.h > 0 && x0 == X * w && i < w && (r >= c.height || x0 + i >= c.width)
    requires w == c.h || (w == 1 && r < c.height)
    ensures i > 0 ==> Padded(c, r, x0 + i) == Dummy(Padded(c, r, x0 + i - 1)[0])
    ensures r >= c.height && x0 < c.width ==> Padded(c, r, x0 + i) == Dummy(Padded(c, r - 1, x0 + w - 1)[0])
  {
    if r >= c.height {
      assert (X + 1) * c.h == X * c.h + c.h;
      InMcu(X, c.h, i);
      InMcu(X, c.h, w - 1);
      if i > 0 { InMcu(X, c.h, i - 1); }
    }
  }

  lemma InMcu(X: int, h: nat, i: nat)
    requires h > 0 && i < h
    ensures (X * h + i) / h == X
  {
    ModUnique(X * h + i, h, X, i);
  }

  /** The blocks of an MCU fit in its buffer. */
  lemma McuFits(fr: Frame, sc: seq<nat>, n: nat, y: nat, x: nat, k: nat)
    requires GoodScan(fr, sc) && k < |sc|
    ensures |McuOf(fr, sc, n, y, x, k)| + MCUHeight(fr, sc, k) * MCUWidth(fr, sc, k) <= 10
    ensures 1 <= MCUWidth(fr, sc, k)
  {
    McuLength(fr, sc, n, y, x, k);
    assert GoodComponent(fr, Of(fr, sc, k));
    if |sc| > 1 {
      Grows(fr, sc, k + 1, |sc|);
      Commute(Of(fr, sc, k).h, Of(fr, sc, k).v);
    }
  }

  lemma Commute(x: int, y: int)
    ensures x * y == y * x
  {
  }

  lemma {:induction false} McuLength(fr: Frame, sc: seq<nat>, n: nat, y: nat, x: nat, k: nat)
    requires GoodScan(fr, sc) && k <= |sc|
    ensures |McuOf(fr, sc, n, y, x, k)| == if |sc| == 1 then k else BlocksIn(fr, sc, k)
  {
    if k > 0 {
      McuLength(fr, sc, n, y, x, k - 1);
      Commute(Of(fr, sc, k - 1).h, Of(fr, sc, k - 1).v);
    }
  }

  lemma {:induction false} Grows(fr: Frame, sc: seq<nat>, j: nat, k: nat)
    requires GoodScan(fr, sc) && j <= k <= |sc|
    ensures BlocksIn(fr, sc, j) <= BlocksIn(fr, sc, k)
  {
    if j < k {
      Grows(fr, sc, j, k - 1);
      assert GoodComponent(fr, Of(fr, sc, k - 1));
      MulLe(0, Of(fr, sc, k - 1).h, Of(fr, sc, k - 1).v);
    }
  }
}
