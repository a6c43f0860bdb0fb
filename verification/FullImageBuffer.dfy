/** compress_first_pass: fills the full-image buffers with real blocks and with the dummy blocks at
    the right and bottom edges. */
module FullImageBuffer {
  import opened Numbers
  import opened McuLayout
  import opened McuBuilders

  /** A buffer padded to full MCUs in both directions. */
  ghost predicate Fits(fr: Frame, c: Component, image: array2<Block>) {
    image.Length0 == fr.total * c.v && image.Length1 == fr.across * c.h
  }

  ghost predicate RowHolds(c: Component, image: array2<Block>, r: int)
    requires c.h > 0 && 0 <= r < image.Length0
    reads image
  {
    forall x :: 0 <= x < image.Length1 ==> image[r, x] == Padded(c, r, x)
  }

  /** The block rows of iMCU row n. */
  ghost predicate StripHolds(c: Component, image: array2<Block>, n: int)
    requires c.h > 0
    reads image
  {
    forall r :: n * c.v <= r < n * c.v + c.v && 0 <= r < image.Length0 ==> RowHolds(c, image, r)
  }

  /** Row r from the DCT, with dummy blocks at the right edge. */
  method FillRealRow(fr: Frame, c: Component, image: array2<Block>, r: nat, ndummy: nat)
    requires GoodComponent(fr, c) && fr.across > 0 && Fits(fr, c, image) && r < image.Length0 && r < c.height
    requires c.width + ndummy == image.Length1 && c.width > 0
    modifies image
    ensures RowHolds(c, image, r)
    ensures forall i, x :: 0 <= i < image.Length0 && 0 <= x < image.Length1 && i != r ==>
        image[i, x] == old(image[i, x])
  {
    hide Padded;
    var x := 0;
    while x < c.width
      invariant 0 <= x <= c.width
      invariant forall k :: 0 <= k < x ==> image[r, k] == Padded(c, r, k)
      invariant forall i, k :: 0 <= i < image.Length0 && 0 <= k < image.Length1 && i != r ==>
          image[i, k] == old(image[i, k])
    {
      RealIs(c, r, x);
      image[r, x] := c.blocks(r, x);
      x := x + 1;
    }
    if ndummy > 0 {
      var lastDC := image[r, c.width - 1][0];
      var bi := 0;
      while bi < ndummy
        invariant 0 <= bi <= ndummy
        invariant forall k :: 0 <= k < c.width + bi ==> image[r, k] == Padded(c, r, k)
        invariant forall i, k :: 0 <= i < image.Length0 && 0 <= k < image.Length1 && i != r ==>
            image[i, k] == old(image[i, k])
      {
        RightEdge(c, r, c.width + bi);
        image[r, c.width + bi] := Zeroed()[0 := lastDC];
        bi := bi + 1;
      }
    }
  }

  lemma RightEdge(c: Component, r: int, x: int)
    requires c.h > 0 && r < c.height && x >= c.width
    ensures Padded(c, r, x) == Dummy(Padded(c, r, c.width - 1)[0])
  {
  }

  /** Row r of dummy blocks, their DC values those of the last block above in the same MCU. */
  method FillDummyRow(fr: Frame, c: Component, image: array2<Block>, r: nat, MCUs_across: nat)
    requires GoodComponent(fr, c) && Fits(fr, c, image) && 0 < r < image.Length0 && r >= c.height
    requires MCUs_across == fr.across && RowHolds(c, image, r - 1)
    modifies image
    ensures RowHolds(c, image, r)
    ensures forall i, x :: 0 <= i < image.Length0 && 0 <= x < image.Length1 && i != r ==>
        image[i, x] == old(image[i, x])
  {
    hide Padded;
    var h, MCUindex := c.h, 0;
    var start := 0;
    while MCUindex < MCUs_across
      invariant 0 <= MCUindex <= MCUs_across && start == MCUindex * h
      invariant forall k :: 0 <= k < start && k < image.Length1 ==> image[r, k] == Padded(c, r, k)
      invariant RowHolds(c, image, r - 1)
      invariant forall i, k :: 0 <= i < image.Length0 && 0 <= k < image.Length1 && i != r ==>
          image[i, k] == old(image[i, k])
    {
      McuInside(MCUindex, MCUs_across, h);
      StartsInside(fr, c, MCUindex);
      assert start + h <= image.Length1;
      var lastDC := image[r - 1, start + h - 1][0];
      var bi := 0;
      while bi < h
        invariant 0 <= bi <= h
        invariant forall k :: 0 <= k < start + bi && k < image.Length1 ==> image[r, k] == Padded(c, r, k)
        invariant forall i, k :: 0 <= i < image.Length0 && 0 <= k < image.Length1 && i != r ==>
            image[i, k] == old(image[i, k])
      {
        DummyFollows(c, r, start, MCUindex, h, bi);
        image[r, start + bi] := Zeroed()[0 := lastDC];
        bi := bi + 1;
      }
      start := start + h;
      MCUindex := MCUindex + 1;
    }
  }

  lemma McuInside(x: int, across: int, h: int)
    requires 0 <= x < across && h > 0
    ensures 0 <= x * h && x * h + h <= across * h && x * h + h == (x + 1) * h
  {
    MulLe(x + 1, across, h);
    MulLe(0, x, h);
  }

  /** Every MCU of a row has a real block of every component. */
  lemma StartsInside(fr: Frame, c: Component, x: int)
    requires GoodComponent(fr, c) && 0 <= x < fr.across
    ensures x * c.h < c.width
  {
    MulLe(x, fr.across - 1, c.h);
  }

  /** One component of iMCU row n. */
  method FirstPassComponent(fr: Frame, c: Component, image: array2<Block>, n: nat)
    requires Good(fr) && GoodComponent(fr, c) && Fits(fr, c, image) && n < fr.total
    modifies image
    ensures StripHolds(c, image, n)
    ensures forall m :: 0 <= m < fr.total && m != n && old(StripHolds(c, image, m)) ==> StripHolds(c, image, m)
  {
    hide Padded;
    var v, first := c.v, n * c.v;
    McuInside(n, fr.total, v);
    var block_rows := if n + 1 < fr.total then v else if c.height % v == 0 then v else c.height % v;
    var blocks_across := c.width;
    var ndummy := blocks_across % c.h;
    if ndummy > 0 {
      ndummy := c.h - ndummy;
    }
    Across(fr, c);
    RealRows(fr, c, n, 0);
    var block_row := 0;
    while block_row < block_rows
      invariant 0 <= block_row <= block_rows
      invariant forall r :: first <= r < first + block_row ==> RowHolds(c, image, r)
      invariant forall i, k :: 0 <= i < image.Length0 && 0 <= k < image.Length1 && !(first <= i < first + v) ==>
        image[i, k] == old(image[i, k])
    {
      RealRows(fr, c, n, block_row);
      label Filling:
      FillRealRow(fr, c, image, first + block_row, ndummy);
      forall r | first <= r < first + block_row ensures RowHolds(c, image, r) {
        assert old@Filling(RowHolds(c, image, r));
      }
      block_row := block_row + 1;
    }
    if n + 1 == fr.total {
      blocks_across := blocks_across + ndummy;
      ModUnique(blocks_across, c.h, fr.across, 0);
      var MCUs_across := blocks_across / c.h;
      while block_row < v
        invariant block_rows <= block_row <= v
        invariant forall r :: first <= r < first + block_row ==> RowHolds(c, image, r)
        invariant forall i, k :: 0 <= i < image.Length0 && 0 <= k < image.Length1 && !(first <= i < first + v) ==>
          image[i, k] == old(image[i, k])
      {
        RealRows(fr, c, n, block_row);
        label Filling:
        FillDummyRow(fr, c, image, first + block_row, MCUs_across);
        forall r | first <= r < first + block_row ensures RowHolds(c, image, r) {
          assert old@Filling(RowHolds(c, image, r));
        }
        block_row := block_row + 1;
      }
    }
    forall m | 0 <= m < fr.total && m != n && old(StripHolds(c, image, m)) ensures StripHolds(c, image, m) {
      Disjoint(m, n, v);
      forall r | m * v <= r < m * v + v && 0 <= r < image.Length0 ensures RowHolds(c, image, r) {
        assert old(RowHolds(c, image, r));
      }
    }
  }

  lemma Across(fr: Frame, c: Component)
    requires GoodComponent(fr, c)
    ensures c.width > 0 || fr.across <= 0
    ensures c.width + (if c.width % c.h == 0 then 0 else c.h - c.width % c.h) == fr.across * c.h
  {
    Remainder(c.width, c.h, fr.across);
    if fr.across > 0 {
      MulLe(0, fr.across - 1, c.h);
    }
  }

  lemma Disjoint(m: int, n: int, v: int)
    requires m != n && v > 0
    ensures m * v + v <= n * v || n * v + v <= m * v
  {
    if m < n { MulLe(m + 1, n, v); } else { MulLe(n + 1, m, v); }
  }
}
