/** The coefficient controllers' passes: MCUs in order, through any suspensions of the entropy coder. */
module CoefController {
  import opened McuLayout
  import opened McuBuilders
  import opened FullImageBuffer

  /** compress_data; compress_first_pass with compress_output; compress_output alone, in a later pass;
      and the transcoder's compress_output. */
  datatype Mode = OnePass | SaveAndPass | CrankDest | Transcode

  /** Where a row of blocks of one MCU lies. */
  lemma RowFacts(fr: Frame, sc: seq<nat>, ci: nat, n: nat, y: nat, x: nat, yindex: nat)
    requires GoodScan(fr, sc) && ci < |sc| && n < fr.total && y < MCURows(fr, sc, n) && x < MCUsPerRow(fr, sc)
    requires yindex < MCUHeight(fr, sc, ci)
    ensures var c, w := Of(fr, sc, ci), MCUWidth(fr, sc, ci);
      && GoodComponent(fr, c) && y + yindex < c.v && 1 <= w
      && (n + 1 < fr.total || y + yindex < LastRowHeight(c) <==> n * c.v + y + yindex < c.height)
      && (w == c.h || (w == 1 && n * c.v + y + yindex < c.height))
      && (yindex == 0 ==> n * c.v + y < c.height)
      && n * c.v + c.v <= fr.total * c.v && x * w + w <= fr.across * c.h && x * w < c.width
  {
    var c := Of(fr, sc, ci);
    assert GoodComponent(fr, c);
    RealRows(fr, c, n, 0);
    RealRows(fr, c, n, y + yindex);
    RealRows(fr, c, n, y);
    McuInside(n, fr.total, c.v);
    if |sc| > 1 {
      McuInside(x, fr.across, c.h);
      StartsInside(fr, c, x);
    }
  }

  ghost predicate Provided(fr: Frame, m: Mode, images: seq<array2<Block>>)
    requires Good(fr)
    reads images
  {
    && (m != OnePass ==> |images| == |fr.comps|)
    && (m == SaveAndPass || m == CrankDest ==>
          && (forall i :: 0 <= i < |images| ==> Fits(fr, fr.comps[i], images[i]))
          && (forall i, j :: 0 <= i < j < |images| ==> images[i] != images[j]))
    && (m == CrankDest ==> forall i, n :: 0 <= i < |images| && 0 <= n < fr.total ==>
          GoodComponent(fr, fr.comps[i]) && StripHolds(fr.comps[i], images[i], n))
    && (m == Transcode ==>
          && (forall i :: 0 <= i < |images| ==>
                fr.comps[i].height <= images[i].Length0 && fr.comps[i].width <= images[i].Length1)
          && (forall i, r, x :: 0 <= i < |images| && 0 <= r < fr.comps[i].height && 0 <= x < fr.comps[i].width ==>
                images[i][r, x] == fr.comps[i].blocks(r, x)))
  }

  class Controller {
    const fr: Frame
    const sc: seq<nat>
    const mode: Mode
    /** The full-image buffers, or the transcoder's coefficient arrays. */
    const images: seq<array2<Block>>
    const MCU_buffer: array<Block>
    const dummy_buffer: array<Block>
    var iMCU_row_num: nat
    var mcu_ctr: nat
    var MCU_vert_offset: nat
    var MCU_rows_per_iMCU_row: nat
    /** The MCUs the entropy coder took. */
    var sent: seq<seq<Block>>

    ghost predicate Allocated() {
      && GoodScan(fr, sc) && MCU_buffer.Length == dummy_buffer.Length == C_MAX_BLOCKS_IN_MCU
      && MCU_buffer != dummy_buffer
      && (mode != OnePass ==> |images| == |fr.comps|)
      && (mode == SaveAndPass || mode == CrankDest ==>
            && (forall i :: 0 <= i < |images| ==> Fits(fr, fr.comps[i], images[i]))
            && (forall i, j :: 0 <= i < j < |images| ==> images[i] != images[j]))
      && (mode == Transcode ==> forall i :: 0 <= i < |images| ==>
            fr.comps[i].height <= images[i].Length0 && fr.comps[i].width <= images[i].Length1)
    }

    /** Where iMCU row n comes from is filled in for every component. */
    ghost predicate Supplied(n: nat)
      requires Allocated()
      reads images
    {
      match mode
      case OnePass => true
      case Transcode =>
        forall i, r, x :: 0 <= i < |images| && 0 <= r < fr.comps[i].height && 0 <= x < fr.comps[i].width ==>
          images[i][r, x] == fr.comps[i].blocks(r, x)
      case _ => forall i :: 0 <= i < |images| ==> fr.comps[i].h > 0 && StripHolds(fr.comps[i], images[i], n)
    }

    ghost predicate Valid()
      reads this, images, dummy_buffer
    {
      && Allocated() && Dummies(dummy_buffer[..]) && iMCU_row_num <= fr.total
      && MCU_rows_per_iMCU_row == MCURows(fr, sc, iMCU_row_num)
      && (if iMCU_row_num < fr.total then MCU_vert_offset < MCU_rows_per_iMCU_row && mcu_ctr < MCUsPerRow(fr, sc)
          else MCU_vert_offset == mcu_ctr == 0)
      && sent == Before(fr, sc, iMCU_row_num, MCU_vert_offset, mcu_ctr)
      && (if mode == SaveAndPass then forall n :: 0 <= n < iMCU_row_num ==> Supplied(n)
          else forall n :: 0 <= n < fr.total ==> Supplied(n))
    }

    /** What a pass of each mode starts from: nothing, room in the full-image buffers, buffers that an
        earlier pass filled, or coefficient arrays holding the real blocks. */
    constructor (frame: Frame, scan: seq<nat>, m: Mode, arrays: seq<array2<Block>>)
      requires GoodScan(frame, scan) && Provided(frame, m, arrays)
      ensures Valid() && fr == frame && sc == scan && mode == m && images == arrays && iMCU_row_num == 0 && sent == []
      ensures fresh(MCU_buffer) && fresh(dummy_buffer)
    {
      fr, sc, mode, images := frame, scan, m, arrays;
      MCU_buffer := new Block[C_MAX_BLOCKS_IN_MCU](_ => Zeroed());
      dummy_buffer := new Block[C_MAX_BLOCKS_IN_MCU](_ => Zeroed());
      iMCU_row_num, mcu_ctr, MCU_vert_offset, MCU_rows_per_iMCU_row, sent := 0, 0, 0, 0, [];
      new;
      hide StripHolds, Good;
      StartIMCURow();
      RowsThere(fr, sc, 0);
      assert Before(fr, sc, 0, 0, 0) == [];
    }

    /** One component's blocks of an MCU. */
    method BuildComponent(ci: nat, y: nat, x: nat, blkn: nat) returns (next: nat)
      requires Allocated() && Dummies(dummy_buffer[..]) && ci < |sc| && iMCU_row_num < fr.total
      requires Supplied(iMCU_row_num)
      requires y < MCURows(fr, sc, iMCU_row_num) && x < MCUsPerRow(fr, sc)
      requires blkn + MCUHeight(fr, sc, ci) * MCUWidth(fr, sc, ci) <= C_MAX_BLOCKS_IN_MCU
      modifies MCU_buffer, dummy_buffer
      ensures next == blkn + MCUHeight(fr, sc, ci) * MCUWidth(fr, sc, ci) && Dummies(dummy_buffer[..])
      ensures var c, w := Of(fr, sc, ci), MCUWidth(fr, sc, ci);
        MCU_buffer[..next] ==
          old(MCU_buffer[..blkn]) + RowsOf(c, iMCU_row_num * c.v + y, x * w, w, MCUHeight(fr, sc, ci))
    {
      hide Padded, RowOf;
      var c, w, n := Of(fr, sc, ci), MCUWidth(fr, sc, ci), iMCU_row_num;
      assert GoodComponent(fr, c);
      var x0, r0 := x * w, n * c.v + y;
      ghost var was := MCU_buffer[..blkn];
      next := blkn;
      var yindex := 0;
      while yindex < MCUHeight(fr, sc, ci)
        invariant 0 <= yindex <= MCUHeight(fr, sc, ci) && next == blkn + yindex * w && Dummies(dummy_buffer[..])
        invariant next <= MCU_buffer.Length && MCU_buffer[..next] == was + RowsOf(c, r0, x0, w, yindex)
      {
        McuInside(yindex, MCUHeight(fr, sc, ci), w);
        RowFacts(fr, sc, ci, n, y, x, yindex);
        if yindex > 0 {
          Previous(c, r0, x0, w, yindex, was, MCU_buffer[..next]);
        }
        BuildRow(ci, y, x, yindex, next);
        next := next + w;
        yindex := yindex + 1;
      }
    }

    /** One row of one component's blocks, the way of each mode. */
    method BuildRow(ci: nat, y: nat, x: nat, yindex: nat, blkn: nat)
      requires Allocated() && Dummies(dummy_buffer[..]) && ci < |sc| && iMCU_row_num < fr.total
      requires Supplied(iMCU_row_num)
      requires y < MCURows(fr, sc, iMCU_row_num) && x < MCUsPerRow(fr, sc) && yindex < MCUHeight(fr, sc, ci)
      requires blkn + MCUWidth(fr, sc, ci) <= C_MAX_BLOCKS_IN_MCU
      requires var c, w := Of(fr, sc, ci), MCUWidth(fr, sc, ci);
        c.h > 0 && (yindex > 0 ==>
          blkn >= 1 && MCU_buffer[blkn - 1] == Padded(c, iMCU_row_num * c.v + y + yindex - 1, x * w + w - 1))
      modifies MCU_buffer, dummy_buffer
      ensures Dummies(dummy_buffer[..])
      ensures var c, w := Of(fr, sc, ci), MCUWidth(fr, sc, ci);
        c.h > 0 &&
          MCU_buffer[..blkn + w] == old(MCU_buffer[..blkn]) + RowOf(c, iMCU_row_num * c.v + y + yindex, x * w, w)
    {
      hide Padded, RowOf;
      var c, w, n := Of(fr, sc, ci), MCUWidth(fr, sc, ci), iMCU_row_num;
      RowFacts(fr, sc, ci, n, y, x, yindex);
      RealColumns(fr, sc, ci, x);
      var x0, r := x * w, n * c.v + y + yindex;
      var blockcnt := if x + 1 < MCUsPerRow(fr, sc) then w else LastColWidth(fr, sc, ci);
      var isReal := n + 1 < fr.total || y + yindex < LastRowHeight(c);
      match mode
      case OnePass =>
        OnePassRow(MCU_buffer, blkn, c, r, x0, w, blockcnt, isReal, x);
      case Transcode =>
        TranscodeRow(MCU_buffer, blkn, c, r, x0, w, blockcnt, isReal, x, images[sc[ci]], dummy_buffer);
      case _ =>
        assert StripHolds(c, images[sc[ci]], n) && RowHolds(c, images[sc[ci]], r);
        OutputRow(MCU_buffer, blkn, c, r, x0, w, images[sc[ci]]);
    }

    /** The blocks handed to encode_mcu for the MCU at row y, column x of the current iMCU row. */
    method BuildMcu(y: nat, x: nat) returns (mcu: seq<Block>)
      requires Allocated() && Dummies(dummy_buffer[..]) && iMCU_row_num < fr.total && Supplied(iMCU_row_num)
      requires y < MCURows(fr, sc, iMCU_row_num) && x < MCUsPerRow(fr, sc)
      modifies MCU_buffer, dummy_buffer
      ensures mcu == Mcu(fr, sc, iMCU_row_num, y, x) && Dummies(dummy_buffer[..])
    {
      hide RowsOf, Dummies, Supplied;
      var blkn, ci := 0, 0;
      while ci < |sc|
        invariant 0 <= ci <= |sc| && 0 <= blkn <= MCU_buffer.Length && Dummies(dummy_buffer[..])
        invariant MCU_buffer[..blkn] == McuOf(fr, sc, iMCU_row_num, y, x, ci)
      {
        McuFits(fr, sc, iMCU_row_num, y, x, ci);
        blkn := BuildComponent(ci, y, x, blkn);
        ci := ci + 1;
      }
      mcu := MCU_buffer[..blkn];
    }

    /** Resets the counters for a new iMCU row. */
    method StartIMCURow()
      requires GoodScan(fr, sc)
      modifies `mcu_ctr, `MCU_vert_offset, `MCU_rows_per_iMCU_row
      ensures MCU_vert_offset == mcu_ctr == 0 && MCU_rows_per_iMCU_row == MCURows(fr, sc, iMCU_row_num)
    {
      if |sc| > 1 {
        MCU_rows_per_iMCU_row := 1;
      } else {
        if iMCU_row_num + 1 < fr.total {
          MCU_rows_per_iMCU_row := fr.comps[sc[0]].v;
        } else {
          MCU_rows_per_iMCU_row := LastRowHeight(fr.comps[sc[0]]);
        }
      }
      mcu_ctr := 0;
      MCU_vert_offset := 0;
    }

    /** Sends the rest of the current iMCU row; the entropy coder suspends when its patience ends. */
    method CompressOutput(patience: nat) returns (ok: bool, left: nat)
      requires Valid() && iMCU_row_num < fr.total && Supplied(iMCU_row_num)
      modifies this, MCU_buffer, dummy_buffer
      ensures Valid() && |sent| == old(|sent|) + patience - left && left <= patience
      ensures if ok then iMCU_row_num == old(iMCU_row_num) + 1 else iMCU_row_num == old(iMCU_row_num) && left == 0
    {
      hide Mcu, Dummies, Supplied, Good;
      left := patience;
      var yoffset := MCU_vert_offset;
      RowsThere(fr, sc, iMCU_row_num);
      while yoffset < MCU_rows_per_iMCU_row
        invariant yoffset <= MCU_rows_per_iMCU_row && (yoffset < MCU_rows_per_iMCU_row ==> mcu_ctr < MCUsPerRow(fr, sc))
        invariant yoffset == MCU_rows_per_iMCU_row ==> mcu_ctr == 0
        invariant Allocated() && Dummies(dummy_buffer[..]) && unchanged(`iMCU_row_num)
        invariant unchanged(`MCU_rows_per_iMCU_row)
        invariant sent == Before(fr, sc, iMCU_row_num, yoffset, mcu_ctr)
        invariant left <= patience && |sent| == old(|sent|) + patience - left
      {
        var MCU_col_num := mcu_ctr;
        while MCU_col_num < MCUsPerRow(fr, sc)
          invariant MCU_col_num <= MCUsPerRow(fr, sc)
          invariant Allocated() && Dummies(dummy_buffer[..]) && unchanged(`iMCU_row_num)
          invariant unchanged(`MCU_rows_per_iMCU_row)
          invariant sent == Before(fr, sc, iMCU_row_num, yoffset, MCU_col_num)
          invariant left <= patience && |sent| == old(|sent|) + patience - left
        {
          var mcu := BuildMcu(yoffset, MCU_col_num);
          if left == 0 {
            MCU_vert_offset := yoffset;
            mcu_ctr := MCU_col_num;
            return false, left;
          }
          left := left - 1;
          sent := sent + [mcu];
          MCU_col_num := MCU_col_num + 1;
        }
        mcu_ctr := 0;
        yoffset := yoffset + 1;
      }
      iMCU_row_num := iMCU_row_num + 1;
      StartIMCURow();
      RowsThere(fr, sc, iMCU_row_num);
      ok := true;
    }

    /** Fills iMCU row n of the full-image buffers. */
    method FirstPass(n: nat)
      requires Valid() && mode == SaveAndPass && n == iMCU_row_num < fr.total
      modifies images
      ensures Valid() && Supplied(n)
    {
      hide StripHolds, Dummies, Before;
      var ci := 0;
      while ci < |fr.comps|
        invariant 0 <= ci <= |fr.comps| && Valid()
        invariant forall i :: 0 <= i < ci ==> fr.comps[i].h > 0 && StripHolds(fr.comps[i], images[i], n)
      {
        assert GoodComponent(fr, fr.comps[ci]);
        label Filling:
        assert forall m :: 0 <= m < n ==> Supplied(m);
        FirstPassComponent(fr, fr.comps[ci], images[ci], n);
        forall m | 0 <= m < n ensures Supplied(m) {
          assert old@Filling(Supplied(m));
          forall i | 0 <= i < |images| ensures fr.comps[i].h > 0 && StripHolds(fr.comps[i], images[i], m) {
            assert old@Filling(StripHolds(fr.comps[i], images[i], m));
          }
        }
        ci := ci + 1;
      }
    }

    /** A finished first pass leaves the buffers ready for later passes. */
    lemma Filled()
      requires Valid()
      ensures mode == SaveAndPass && iMCU_row_num == fr.total ==> Provided(fr, CrankDest, images)
    {
      hide StripHolds, Before;
      if mode == SaveAndPass && iMCU_row_num == fr.total {
        forall i, n | 0 <= i < |images| && 0 <= n < fr.total
          ensures GoodComponent(fr, fr.comps[i]) && StripHolds(fr.comps[i], images[i], n)
        {
          assert Supplied(n);
        }
      }
    }

    /** Processes some data: as much as one whole iMCU row. */
    method CompressData(patience: nat) returns (ok: bool, left: nat)
      requires Valid() && iMCU_row_num < fr.total
      modifies this, MCU_buffer, dummy_buffer, images
      ensures Valid() && |sent| == old(|sent|) + patience - left && left <= patience
      ensures if ok then iMCU_row_num == old(iMCU_row_num) + 1 else iMCU_row_num == old(iMCU_row_num) && left == 0
    {
      hide Mcu, Dummies, Good, Before;
      if mode == SaveAndPass {
        FirstPass(iMCU_row_num);
      }
      assert Supplied(iMCU_row_num);
      ok, left := CompressOutput(patience);
    }
  }

  /** The block before a row of blocks ends the row above it. */
  lemma Previous(c: Component, r0: int, x0: int, w: nat, k: nat, was: seq<Block>, b: seq<Block>)
    requires c.h > 0 && w > 0 && k > 0 && b == was + RowsOf(c, r0, x0, w, k)
    ensures |b| > 0 && b[|b| - 1] == Padded(c, r0 + k - 1, x0 + w - 1)
  {
    var above := RowsOf(c, r0, x0, w, k - 1);
    assert b == was + above + RowOf(c, r0 + k - 1, x0, w);
    assert b[|b| - 1] == RowOf(c, r0 + k - 1, x0, w)[w - 1];
  }

  lemma RowsThere(fr: Frame, sc: seq<nat>, n: nat)
    requires GoodScan(fr, sc)
    ensures MCURows(fr, sc, n) >= 1 && MCUsPerRow(fr, sc) >= 1
  {
    var c := Of(fr, sc, 0);
    assert GoodComponent(fr, c);
    Across(fr, c);
  }

  // Whole passes ----------------------------------------------------------------------------------------

  /** The MCUs of a scan. */
  ghost function AllMcus(fr: Frame, sc: seq<nat>): seq<seq<Block>>
    requires GoodScan(fr, sc)
  {
    Before(fr, sc, fr.total, 0, 0)
  }

  lemma {:induction false} SoFar(fr: Frame, sc: seq<nat>, n: nat, y: nat, x: nat)
    requires GoodScan(fr, sc) && n < fr.total && y <= MCURows(fr, sc, n) && x <= MCUsPerRow(fr, sc)
    requires y == MCURows(fr, sc, n) ==> x == 0
    ensures Before(fr, sc, n, y, x) <= AllMcus(fr, sc)
    decreases fr.total - n, MCURows(fr, sc, n) - y, MCUsPerRow(fr, sc) - x
  {
    hide Mcu, Good;
    RowsThere(fr, sc, n);
    if y < MCURows(fr, sc, n) {
      if x < MCUsPerRow(fr, sc) {
        SoFar(fr, sc, n, y, x + 1);
      } else {
        SoFar(fr, sc, n, y + 1, 0);
      }
    } else if n + 1 < fr.total {
      SoFar(fr, sc, n + 1, 0, 0);
    }
  }

  /** A pass in any mode, the entropy coder taking patience[k] MCUs in call k before it suspends: it is
      handed the MCUs of the scan from the first on, and all of them in the end. */
  method CodePass(fr: Frame, sc: seq<nat>, mode: Mode, images: seq<array2<Block>>, patience: seq<nat>)
    returns (sent: seq<seq<Block>>, done: bool)
    requires GoodScan(fr, sc) && Provided(fr, mode, images)
    modifies images
    ensures sent <= AllMcus(fr, sc) && (done ==> sent == AllMcus(fr, sc))
    ensures Patient(patience) && |patience| >= fr.total + |AllMcus(fr, sc)| ==> done
    ensures mode == SaveAndPass && done ==> Provided(fr, CrankDest, images)
  {
    hide Before, Good, StripHolds;
    var coef := new Controller(fr, sc, mode, images);
    var k := 0;
    while k < |patience| && coef.iMCU_row_num < fr.total
      invariant 0 <= k <= |patience| && coef.fr == fr && coef.sc == sc && coef.mode == mode && coef.images == images
      invariant fresh(coef) && fresh(coef.MCU_buffer) && fresh(coef.dummy_buffer) && coef.Valid()
      invariant Patient(patience) && coef.iMCU_row_num < fr.total ==>
        coef.iMCU_row_num + |coef.sent| >= k
    {
      var ok, left := coef.CompressData(patience[k]);
      k := k + 1;
    }
    if coef.iMCU_row_num < fr.total {
      SoFar(fr, sc, coef.iMCU_row_num, coef.MCU_vert_offset, coef.mcu_ctr);
    }
    sent, done := coef.sent, coef.iMCU_row_num == fr.total;
    coef.Filled();
  }

  /** The same real blocks in any mode, under any suspensions: a pass that is finished has handed over
      the same MCUs in the same order, dummy blocks included. A scan of a later pass reads what the
      first pass, over another scan, left behind. */
  method BuildersAgree(fr: Frame, first: seq<nat>, sc: seq<nat>, buffers: seq<array2<Block>>,
                       arrays: seq<array2<Block>>, patience: Mode -> seq<nat>)
    returns (onePass: seq<seq<Block>>, later: seq<seq<Block>>, transcoded: seq<seq<Block>>)
    requires GoodScan(fr, first) && GoodScan(fr, sc)
    requires Provided(fr, SaveAndPass, buffers) && Provided(fr, Transcode, arrays)
    requires forall i, j :: 0 <= i < |buffers| && 0 <= j < |arrays| ==> buffers[i] != arrays[j]
    requires forall m :: Patient(patience(m)) && |patience(m)| >= fr.total + |AllMcus(fr, sc)| + |AllMcus(fr, first)|
    modifies buffers, arrays
    ensures onePass == later == transcoded == AllMcus(fr, sc)
  {
    hide AllMcus, GoodScan;
    var done;
    onePass, done := CodePass(fr, sc, OnePass, [], patience(OnePass));
    var firstPass;
    firstPass, done := CodePass(fr, first, SaveAndPass, buffers, patience(SaveAndPass));
    later, done := CodePass(fr, sc, CrankDest, buffers, patience(CrankDest));
    transcoded, done := CodePass(fr, sc, Transcode, arrays, patience(Transcode));
  }

  /** Every call gets an MCU or more through. */
  predicate Patient(patience: seq<nat>) {
    forall k :: 0 <= k < |patience| ==> patience[k] > 0
  }
}
