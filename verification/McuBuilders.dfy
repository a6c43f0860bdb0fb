/** The three coefficient controllers: one-pass compression, compression through full-image buffers,
    and transcoding. Each builds MCUs its own way; all hand the entropy coder the same ones. */
module McuBuilders {
  import opened McuLayout

  // One row of blocks of one MCU -------------------------------------------------------------------

  /** compress_data: transforms the real blocks, and makes up the dummy ones. */
  method OnePassRow(buf: array<Block>, blkn: nat, c: Component, r: nat, x0: nat, w: nat, blockcnt: nat, isReal: bool,
                    ghost X: int)
    requires blkn + w <= buf.Length && c.h > 0 && x0 == X * w && (w == c.h || (w == 1 && r < c.height))
    requires isReal <==> r < c.height
    requires 1 <= blockcnt <= w && x0 + blockcnt == Least(x0 + w, c.width)
    requires !isReal ==> blkn >= 1 && buf[blkn - 1] == Padded(c, r - 1, x0 + w - 1)
    modifies buf
    ensures buf[..blkn + w] == old(buf[..blkn]) + RowOf(c, r, x0, w)
  {
    hide Padded, RowOf;
    ghost var was := buf[..blkn];
    RowNext(c, r, x0, 0);
    var i := 0;
    if isReal {
      while i < blockcnt
        invariant 0 <= i <= blockcnt && buf[..blkn + i] == was + RowOf(c, r, x0, i)
      {
        RealIs(c, r, x0 + i);
        RowNext(c, r, x0, i);
        buf[blkn + i] := c.blocks(r, x0 + i);
        assert buf[..blkn + i + 1] == buf[..blkn + i] + [buf[blkn + i]];
        i := i + 1;
      }
      while i < w
        invariant blockcnt <= i <= w && buf[..blkn + i] == was + RowOf(c, r, x0, i)
      {
        DummyFollows(c, r, x0, X, w, i);
        LastOf(c, r, x0, i, was, buf[..blkn + i]);
        RowNext(c, r, x0, i);
        buf[blkn + i] := Zeroed()[0 := buf[blkn + i - 1][0]];
        assert buf[..blkn + i + 1] == buf[..blkn + i] + [buf[blkn + i]];
        i := i + 1;
      }
    } else {
      while i < w
        invariant 0 <= i <= w && buf[..blkn + i] == was + RowOf(c, r, x0, i) && buf[blkn - 1] == old(buf[blkn - 1])
      {
        DummyFollows(c, r, x0, X, w, i);
        RowNext(c, r, x0, i);
        buf[blkn + i] := Zeroed()[0 := buf[blkn - 1][0]];
        assert buf[..blkn + i + 1] == buf[..blkn + i] + [buf[blkn + i]];
        i := i + 1;
      }
    }
  }

  lemma LastOf(c: Component, r: int, x0: int, i: nat, was: seq<Block>, b: seq<Block>)
    requires c.h > 0 && i > 0 && b == was + RowOf(c, r, x0, i)
    ensures |b| > 0 && b[|b| - 1] == Padded(c, r, x0 + i - 1)
  {
  }

  function Zeroed(): Block {
    seq(64, i => 0)
  }

  lemma RealIs(c: Component, r: int, x: int)
    requires c.h > 0 && r < c.height && x < c.width
    ensures Padded(c, r, x) == c.blocks(r, x)
  {
  }

  /** compress_output of jccoefct.c: takes everything from the full-image buffer. */
  method OutputRow(buf: array<Block>, blkn: nat, c: Component, r: nat, x0: nat, w: nat, image: array2<Block>)
    requires blkn + w <= buf.Length && c.h > 0 && r < image.Length0 && x0 + w <= image.Length1
    requires forall x :: x0 <= x < x0 + w ==> image[r, x] == Padded(c, r, x)
    modifies buf
    ensures buf[..blkn + w] == old(buf[..blkn]) + RowOf(c, r, x0, w)
  {
    hide Padded, RowOf;
    ghost var was := buf[..blkn];
    RowNext(c, r, x0, 0);
    var xindex := 0;
    while xindex < w
      invariant 0 <= xindex <= w && buf[..blkn + xindex] == was + RowOf(c, r, x0, xindex)
    {
      RowNext(c, r, x0, xindex);
      buf[blkn + xindex] := image[r, x0 + xindex];
      assert buf[..blkn + xindex + 1] == buf[..blkn + xindex] + [buf[blkn + xindex]];
      xindex := xindex + 1;
    }
  }

  /** Only the DC value of a dummy block is ever set. */
  ghost predicate Dummies(dummy: seq<Block>) {
    forall k, j :: 0 <= k < |dummy| && 0 < j < 64 ==> dummy[k][j] == 0
  }

  /** The real blocks of the row are those of the coefficient array. */
  method TranscodeReal(buf: array<Block>, blkn: nat, c: Component, r: nat, x0: nat, blockcnt: nat, image: array2<Block>)
    requires c.h > 0 && blkn + blockcnt <= buf.Length
    requires r < c.height <= image.Length0 && x0 + blockcnt <= c.width <= image.Length1
    requires forall x :: x0 <= x < x0 + blockcnt ==> image[r, x] == c.blocks(r, x)
    modifies buf
    ensures buf[..blkn + blockcnt] == old(buf[..blkn]) + RowOf(c, r, x0, blockcnt)
  {
    hide Padded, RowOf;
    ghost var was := buf[..blkn];
    RowNext(c, r, x0, 0);
    for xindex := 0 to blockcnt
      invariant buf[..blkn + xindex] == was + RowOf(c, r, x0, xindex)
    {
      RealIs(c, r, x0 + xindex);
      RowNext(c, r, x0, xindex);
      buf[blkn + xindex] := image[r, x0 + xindex];
      assert buf[..blkn + xindex + 1] == buf[..blkn + xindex] + [buf[blkn + xindex]];
    }
  }

  /** compress_output of jctrans.c: real blocks from the virtual array, dummy ones made up on the fly. */
  method TranscodeRow(buf: array<Block>, blkn: nat, c: Component, r: nat, x0: nat, w: nat, blockcnt: nat,
                      isReal: bool, ghost X: int, image: array2<Block>, dummy: array<Block>)
    requires blkn + w <= buf.Length == dummy.Length && buf != dummy && c.h > 0 && x0 == X * w
    requires (w == c.h || (w == 1 && r < c.height)) && (isReal <==> r < c.height)
    requires 1 <= blockcnt <= w && x0 + blockcnt == Least(x0 + w, c.width)
    requires c.height <= image.Length0 && c.width <= image.Length1
    requires isReal ==> forall x :: x0 <= x < x0 + blockcnt ==> image[r, x] == c.blocks(r, x)
    requires !isReal ==> blkn >= 1 && buf[blkn - 1] == Padded(c, r - 1, x0 + w - 1)
    requires Dummies(dummy[..])
    modifies buf, dummy
    ensures buf[..blkn + w] == old(buf[..blkn]) + RowOf(c, r, x0, w) && Dummies(dummy[..])
  {
    hide Padded, RowOf, Dummies;
    ghost var was := buf[..blkn];
    RowNext(c, r, x0, 0);
    var xindex := 0;
    if isReal {
      TranscodeReal(buf, blkn, c, r, x0, blockcnt, image);
      xindex := blockcnt;
    }
    while xindex < w
      invariant (if isReal then blockcnt else 0) <= xindex <= w && Dummies(dummy[..])
      invariant buf[..blkn + xindex] == was + RowOf(c, r, x0, xindex)
      invariant xindex == 0 ==> buf[blkn - 1] == old(buf[blkn - 1])
    {
      DummyFollows(c, r, x0, X, w, xindex);
      if xindex > 0 {
        LastOf(c, r, x0, xindex, was, buf[..blkn + xindex]);
      }
      RowNext(c, r, x0, xindex);
      MakeDummy(buf, blkn + xindex, dummy);
      xindex := xindex + 1;
    }
  }

  /** The dummy block of place at, with the DC value of the block before. */
  method MakeDummy(buf: array<Block>, at: nat, dummy: array<Block>)
    requires 1 <= at < buf.Length == dummy.Length && buf != dummy && Dummies(dummy[..])
    modifies buf, dummy
    ensures Dummies(dummy[..]) && buf[..at + 1] == old(buf[..at]) + [Dummy(old(buf[at - 1][0]))]
  {
    DummyIs(dummy[..], at, buf[at - 1][0]);
    hide Dummies, Dummy;
    ghost var made := dummy[..][at := Dummy(buf[at - 1][0])];
    dummy[at] := dummy[at][0 := buf[at - 1][0]];
    assert dummy[..] == made;
    buf[at] := dummy[at];
    assert buf[..at + 1] == buf[..at] + [buf[at]];
  }

  lemma DummyIs(dummy: seq<Block>, at: nat, dc: int)
    requires Dummies(dummy) && at < |dummy|
    ensures dummy[at][0 := dc] == Dummy(dc) && Dummies(dummy[at := Dummy(dc)])
  {
  }
}
