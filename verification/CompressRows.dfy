/** The compressor's row pipeline: jpeg_write_scanlines over process_data_simple_main over
    pre_process_context. A downsampled row group is represented by what the downsampler was shown. */
module CompressRows {
  import opened Numbers
  import opened PrepRows

  ghost function RowBase(m: Image, g: int): int {
    g * m.v
  }

  lemma BaseSign(m: Image, g: int)
    ensures g >= 0 ==> RowBase(m, g) >= 0
    ensures RowBase(m, 0) == 0
  {
    if g >= 0 {
      MulLe(0, g, m.v);
    }
  }

  /** The first n rows of the image. */
  ghost function FirstRows(m: Image, n: nat): (r: seq<Row>)
    ensures |r| == n
  {
    seq(n, y requires 0 <= y < n => m.row(y))
  }

  class Compressor {
    const m: Image
    /** The preprocessor: the true buffer, the list of pointers into it, and its indexes. */
    const true_buffer: array<Row>
    const fake_buffer: array<int>
    var rows_to_go: nat
    var next_buf_row: int
    var this_row_group: int
    var next_buf_stop: int
    /** Every row handed to colour conversion. */
    ghost var converted: seq<Row>
    /** The main controller. */
    const buffer: array<seq<Row>>
    var cur_iMCU_row: nat
    var rowgroup_ctr: nat
    var suspended: bool
    /** The iMCU rows the compressor took. */
    var sent: seq<seq<seq<Row>>>
    /** The application's view. */
    var next_scanline: nat

    ghost predicate Allocated()
      reads fake_buffer
    {
      && Good(m) && true_buffer.Length == 3 * m.v && fake_buffer.Length == 5 * m.v && buffer.Length == m.M
      && forall i :: 0 <= i < 5 * m.v ==> fake_buffer[i] == Physical(m.v, i - m.v)
    }

    /** jinit_c_prep_controller, start_pass_prep, start_pass_main and jpeg_start_compress. */
    constructor (image: Image)
      requires Good(image)
      ensures m == image && Valid() && next_scanline == 0 && sent == [] && !suspended
      ensures fresh(true_buffer) && fresh(fake_buffer) && fresh(buffer)
    {
      m := image;
      true_buffer := new Row[3 * image.v](_ => []);
      fake_buffer := new int[5 * image.v](_ => 0);
      buffer := new seq<Row>[image.M](_ => []);
      rows_to_go, next_buf_row, this_row_group, next_buf_stop := image.height, 0, 0, 2 * image.v;
      converted := [];
      cur_iMCU_row, rowgroup_ctr, suspended, sent, next_scanline := 0, 0, false, [], 0;
      new;
      CreateContextBuffer();
      assert RowBase(m, 0) == 0;
    }

    /** The ring of three row groups, whose row list has one more group wrapping around at each end. */
    method CreateContextBuffer()
      requires Good(m) && true_buffer.Length == 3 * m.v && fake_buffer.Length == 5 * m.v && buffer.Length == m.M
      modifies fake_buffer
      ensures Allocated()
    {
      var i := 0;
      while i < 3 * m.v
        invariant 0 <= i <= 3 * m.v
        invariant forall k :: m.v <= k < m.v + i ==> fake_buffer[k] == k - m.v
      {
        fake_buffer[m.v + i] := i;
        i := i + 1;
      }
      i := 0;
      while i < m.v
        invariant 0 <= i <= m.v
        invariant forall k :: m.v <= k < 4 * m.v ==> fake_buffer[k] == k - m.v
        invariant forall k :: 0 <= k < i ==> fake_buffer[k] == Physical(m.v, k - m.v)
        invariant forall k :: 4 * m.v <= k < 4 * m.v + i ==> fake_buffer[k] == Physical(m.v, k - m.v)
      {
        fake_buffer[i] := 2 * m.v + i;
        fake_buffer[4 * m.v + i] := i;
        i := i + 1;
      }
    }

    // The preprocessor ----------------------------------------------------------------------------

    /** Row groups handed on so far. */
    ghost function Groups(): int
      reads `cur_iMCU_row, `rowgroup_ctr
    {
      cur_iMCU_row * m.M + rowgroup_ctr
    }

    /** Rows held from the current row group on. */
    ghost function Held(): int
      reads `next_buf_stop, `next_buf_row
    {
      2 * m.v - (next_buf_stop - next_buf_row)
    }

    /** The ring holds the rows around row group g. */
    ghost predicate Holding(g: int)
      requires Allocated()
      reads `rows_to_go, `next_buf_row, `this_row_group, `next_buf_stop, `converted, true_buffer, fake_buffer
    {
      && rows_to_go <= m.height && Start(m, this_row_group) && next_buf_stop == StopOf(m.v, this_row_group)
      && 0 <= Held() <= 2 * m.v && (if g == 0 then this_row_group == 0 else g > 0 && Held() >= m.v)
      && Ring(m, true_buffer[..], this_row_group, RowBase(m, g), if Held() == 0 then 0 else 0 - m.v, Held())
      && (if rows_to_go > 0 then RowBase(m, g) + Held() == m.height - rows_to_go
          else RowBase(m, g) + Held() >= m.height)
      && converted == FirstRows(m, m.height - rows_to_go)
    }

    /** The row groups of the current iMCU row made so far, and all iMCU rows before. */
    ghost predicate Made()
      requires Allocated()
      reads `cur_iMCU_row, `rowgroup_ctr, `sent, buffer, fake_buffer
    {
      && cur_iMCU_row <= m.total && rowgroup_ctr <= m.M
      && (forall j :: 0 <= j < rowgroup_ctr ==> buffer[j] == Group(m, cur_iMCU_row * m.M + j))
      && sent == Strips(m, cur_iMCU_row)
    }

    /** Between calls. */
    ghost predicate Valid()
      reads this, true_buffer, fake_buffer, buffer
    {
      && Allocated() && Holding(Groups()) && Held() < 2 * m.v && Made()
      && (if suspended then rowgroup_ctr == m.M && cur_iMCU_row < m.total
          else rowgroup_ctr < m.M && (rows_to_go > 0 || cur_iMCU_row == m.total))
      && next_scanline == m.height - rows_to_go - (if suspended then 1 else 0)
    }

    /** Colour conversion of the next rows into the conversion buffer, padded at the top of the image
        the first time. */
    method ConvertRows(input_buf: seq<Row>, in_row_ctr: nat, in_rows_avail: nat, ghost g: int) returns (numrows: nat)
      requires Allocated() && Holding(g) && Held() < 2 * m.v
      requires in_row_ctr < in_rows_avail <= |input_buf| && in_rows_avail - in_row_ctr <= rows_to_go
      requires forall i :: in_row_ctr <= i < in_rows_avail ==>
          input_buf[i] == m.row(m.height - rows_to_go - in_row_ctr + i)
      modifies this`next_buf_row, this`rows_to_go, this`converted, true_buffer
      ensures 0 < numrows <= in_rows_avail - in_row_ctr && rows_to_go == old(rows_to_go) - numrows
      ensures Holding(g) && Held() == old(Held()) + numrows
      ensures Held() == 2 * m.v || in_row_ctr + numrows == in_rows_avail
    {
      BaseSign(m, g);
      hide Endless, RowBase, Ring;
      numrows := next_buf_stop - next_buf_row;
      if in_rows_avail - in_row_ctr < numrows {
        numrows := in_rows_avail - in_row_ctr;
      }
      ghost var e, base := Held(), RowBase(m, g);
      forall i | in_row_ctr <= i < in_row_ctr + numrows ensures input_buf[i] == Endless(m, base + e - in_row_ctr + i) {
        InRange(m, base + e - in_row_ctr + i);
      }
      ColorConvert(input_buf, in_row_ctr, numrows, e, base, if e == 0 then 0 else 0 - m.v);
      if rows_to_go == m.height {
        PadTop(e + numrows);
      }
      converted := converted + input_buf[in_row_ctr..in_row_ctr + numrows];
      next_buf_row := next_buf_row + numrows;
      rows_to_go := rows_to_go - numrows;
    }

    /** Stores numrows rows from next_buf_row on. */
    method ColorConvert(input_buf: seq<Row>, from: nat, numrows: nat, ghost e: int, ghost base: int, ghost lo: int)
      requires Allocated() && Start(m, this_row_group) && Ring(m, true_buffer[..], this_row_group, base, lo, e)
      requires 0 - m.v <= lo && 0 <= e && e + numrows <= 2 * m.v && (e < m.v ==> this_row_group == 0)
      requires next_buf_row == StopOf(m.v, this_row_group) - (2 * m.v - e)
      requires from + numrows <= |input_buf|
      requires forall i :: from <= i < from + numrows ==> input_buf[i] == Endless(m, base + e - from + i)
      modifies true_buffer
      ensures Ring(m, true_buffer[..], this_row_group, base, lo, e + numrows)
    {
      hide Endless, Ring;
      var i := 0;
      while i < numrows
        invariant 0 <= i <= numrows && Ring(m, true_buffer[..], this_row_group, base, lo, e + i)
      {
        ghost var color := true_buffer[..];
        Store(m, color, this_row_group, base, lo, e + i);
        true_buffer[fake_buffer[next_buf_row + i + m.v]] := input_buf[from + i];
        assert true_buffer[..] == color[Physical(m.v, this_row_group + e + i) := Endless(m, base + e + i)];
        i := i + 1;
      }
    }

    /** The rows above the image are copies of its first row. */
    method PadTop(ghost e: int)
      requires Allocated() && Ring(m, true_buffer[..], 0, 0, 0, e) && 0 < e <= 2 * m.v
      modifies true_buffer
      ensures Ring(m, true_buffer[..], 0, 0, 0 - m.v, e)
    {
      hide Ring;
      var row := 1;
      while row <= m.v
        invariant 1 <= row <= m.v + 1 && Ring(m, true_buffer[..], 0, 0, 1 - row, e)
      {
        ghost var color := true_buffer[..];
        StoreAbove(m, color, 1 - row, e);
        true_buffer[fake_buffer[m.v - row]] := true_buffer[fake_buffer[0 + m.v]];
        assert true_buffer[..] == color[Physical(m.v, 0 - row) := m.row(0)];
        row := row + 1;
      }
    }

    /** At the bottom of the image, fills the conversion buffer by repeating the last row. */
    method ExpandBottomEdge(ghost g: int)
      requires Allocated() && Holding(g) && rows_to_go == 0
      modifies this`next_buf_row, true_buffer
      ensures Holding(g) && Held() == 2 * m.v
    {
      BaseSign(m, g);
      hide Endless, RowBase, Ring;
      ghost var e, base := Held(), RowBase(m, g);
      var row := next_buf_row;
      while row < next_buf_stop
        modifies true_buffer
        invariant next_buf_row <= row <= next_buf_stop
        invariant Ring(m, true_buffer[..], this_row_group, base, 0 - m.v, e + row - next_buf_row)
        invariant Physical(m.v, next_buf_row - 1) == Physical(m.v, this_row_group + e - 1)
      {
        ghost var color := true_buffer[..];
        Store(m, color, this_row_group, base, 0 - m.v, e + row - next_buf_row);
        LastRow(m, color, this_row_group, base, e + row - next_buf_row, e);
        true_buffer[fake_buffer[row + m.v]] := true_buffer[fake_buffer[next_buf_row - 1 + m.v]];
        assert true_buffer[..] ==
          color[Physical(m.v, this_row_group + e + row - next_buf_row) := Endless(m, base + e + row - next_buf_row)];
        row := row + 1;
      }
      next_buf_row := next_buf_stop;
    }

    /** Downsamples a row group and advances with wraparound. */
    method DownsampleGroup()
      requires Allocated() && Holding(Groups()) && Made() && Held() == 2 * m.v && rowgroup_ctr < m.M
      modifies this`next_buf_row, this`this_row_group, this`next_buf_stop, this`rowgroup_ctr, buffer
      ensures Allocated() && Holding(Groups()) && Made() && Held() == m.v
      ensures rowgroup_ctr == old(rowgroup_ctr) + 1
    {
      hide Ring, Group, RowBase, FirstRows, Strips, Strip, Good;
      ghost var g := Groups();
      var group := ShownRows(g);
      buffer[rowgroup_ctr] := group;
      AdvanceRing(g);
      rowgroup_ctr := rowgroup_ctr + 1;
    }

    /** Advances the indexes with wraparound as necessary. */
    method AdvanceRing(ghost g: int)
      requires Allocated() && Holding(g) && Held() == 2 * m.v
      modifies this`next_buf_row, this`this_row_group, this`next_buf_stop
      ensures Holding(g + 1) && Held() == m.v
    {
      Advance(m, true_buffer[..], this_row_group, RowBase(m, g));
      OneMore(m, g);
      hide Ring, RowBase, FirstRows;
      this_row_group := this_row_group + m.v;
      if this_row_group >= 3 * m.v {
        this_row_group := 0;
      }
      if next_buf_row >= 3 * m.v {
        next_buf_row := 0;
      }
      next_buf_stop := next_buf_row + m.v;
    }

    /** What the downsampler is shown: the row group at this_row_group and its neighbours. */
    method ShownRows(ghost g: int) returns (rows: seq<Row>)
      requires Allocated() && Start(m, this_row_group)
      requires Ring(m, true_buffer[..], this_row_group, RowBase(m, g), 0 - m.v, 2 * m.v)
      ensures rows == Group(m, g)
    {
      hide Endless;
      rows := [];
      var i := 0;
      while i < 3 * m.v
        invariant 0 <= i <= 3 * m.v && |rows| == i
        invariant forall k :: 0 <= k < i ==> rows[k] == Endless(m, g * m.v - m.v + k)
      {
        var p := this_row_group - m.v + i;
        assert Cell(true_buffer[..], m.v, p) == Endless(m, RowBase(m, g) - this_row_group + p);
        rows := rows + [true_buffer[fake_buffer[p + m.v]]];
        i := i + 1;
      }
    }

    /** Makes row groups until the iMCU row is full, or the input is used up short of the bottom. */
    method PreProcessContext(input_buf: seq<Row>, in_row_ctr: nat, in_rows_avail: nat) returns (ctr: nat)
      requires Allocated() && Holding(Groups()) && Held() < 2 * m.v && Made() && rowgroup_ctr < m.M
      requires in_rows_avail <= |input_buf|
      requires (in_row_ctr <= in_rows_avail ==> in_rows_avail - in_row_ctr <= rows_to_go)
      requires forall i :: in_row_ctr <= i < in_rows_avail ==>
          input_buf[i] == m.row(m.height - rows_to_go - in_row_ctr + i)
      modifies this`next_buf_row, this`rows_to_go, this`this_row_group, this`next_buf_stop, this`rowgroup_ctr,
               this`converted, true_buffer, buffer
      ensures Allocated() && Holding(Groups()) && Held() < 2 * m.v && Made()
      ensures ctr >= in_row_ctr && rows_to_go == old(rows_to_go) - (ctr - in_row_ctr)
      ensures (ctr > in_row_ctr ==> ctr <= in_rows_avail)
      ensures rowgroup_ctr <= m.M && (rowgroup_ctr < m.M ==> ctr >= in_rows_avail && rows_to_go > 0)
      ensures rowgroup_ctr == m.M ==> ctr > in_row_ctr || old(rows_to_go) == 0
    {
      hide Ring, Strips, Group, Good, RowBase, FirstRows;
      ctr := in_row_ctr;
      while rowgroup_ctr < m.M
        invariant Allocated() && Holding(Groups()) && Held() < 2 * m.v && Made()
        invariant ctr >= in_row_ctr && rows_to_go == old(rows_to_go) - (ctr - in_row_ctr)
        invariant (ctr > in_row_ctr ==> ctr <= in_rows_avail)
        invariant ctr <= in_rows_avail ==> in_rows_avail - ctr <= rows_to_go
        invariant forall i :: ctr <= i < in_rows_avail ==> input_buf[i] == m.row(m.height - rows_to_go - ctr + i)
        invariant rowgroup_ctr == old(rowgroup_ctr) || ctr > in_row_ctr || old(rows_to_go) == 0
        decreases m.M - rowgroup_ctr, 2 * m.v - Held()
      {
        if ctr < in_rows_avail {
          var numrows := ConvertRows(input_buf, ctr, in_rows_avail, Groups());
          ctr := ctr + numrows;
        } else {
          if rows_to_go != 0 {
            break;
          }
          ExpandBottomEdge(Groups());
        }
        if next_buf_row == next_buf_stop {
          DownsampleGroup();
        }
      }
    }

    // The main controller ---------------------------------------------------------------------------

    /** process_data_simple_main. The compressor takes iMCU rows until its patience ends; then the last
        input row is reported as not yet consumed. */
    method ProcessData(input_buf: seq<Row>, in_rows_avail: nat, patience: nat) returns (in_row_ctr: nat)
      requires Valid() && in_rows_avail <= |input_buf| && in_rows_avail <= m.height - next_scanline
      requires forall i :: 0 <= i < in_rows_avail ==> input_buf[i] == m.row(next_scanline + i)
      modifies this`next_buf_row, this`rows_to_go, this`this_row_group, this`next_buf_stop, this`rowgroup_ctr,
               this`converted, this`cur_iMCU_row, this`suspended, this`sent, true_buffer, buffer
      ensures Ready() && next_scanline + in_row_ctr == m.height - rows_to_go - (if suspended then 1 else 0)
      ensures cur_iMCU_row >= old(cur_iMCU_row) && (in_rows_avail > 0 ==> in_row_ctr <= in_rows_avail)
      ensures patience >= m.total && in_rows_avail > 0 ==> in_row_ctr == in_rows_avail && !suspended
    {
      assert cur_iMCU_row <= m.total;
      hide Holding, Made, Groups, Held, Allocated;
      in_row_ctr := 0;
      var left := patience;
      while cur_iMCU_row < m.total
        invariant Allocated() && Holding(Groups()) && Held() < 2 * m.v && Made()
        invariant if suspended then rowgroup_ctr == m.M && cur_iMCU_row < m.total && in_row_ctr == 0
                  else rowgroup_ctr < m.M
        invariant !suspended && in_row_ctr == 0 ==> rows_to_go > 0 || cur_iMCU_row == m.total
        invariant next_scanline + in_row_ctr == m.height - rows_to_go - (if suspended then 1 else 0)
        invariant old(cur_iMCU_row) <= cur_iMCU_row <= m.total && left >= patience - cur_iMCU_row
        invariant in_rows_avail > 0 ==> in_row_ctr <= in_rows_avail
      {
        if rowgroup_ctr < m.M {
          in_row_ctr := PreProcessContext(input_buf, in_row_ctr, in_rows_avail);
        }
        if rowgroup_ctr != m.M {
          return;
        }
        if left == 0 {
          in_row_ctr := Suspend(in_row_ctr);
          return;
        }
        left := left - 1;
        in_row_ctr := Deliver(in_row_ctr);
      }
      NothingMore();
    }

    /** The compressor did not take the row: pretends the last input row is not yet consumed. */
    method Suspend(in_row_ctr: nat) returns (ctr: nat)
      requires suspended || in_row_ctr > 0
      modifies `suspended
      ensures suspended && ctr == if old(suspended) then in_row_ctr else in_row_ctr - 1
    {
      ctr := in_row_ctr;
      if !suspended {
        ctr := ctr - 1;
        suspended := true;
      }
    }

    /** The compressor took it: undoes the hack if a previous call suspended. */
    method Deliver(in_row_ctr: nat) returns (ctr: nat)
      requires Allocated() && Holding(Groups()) && Made() && rowgroup_ctr == m.M && cur_iMCU_row < m.total
      modifies this`sent, this`rowgroup_ctr, this`cur_iMCU_row, `suspended
      ensures Allocated() && Holding(Groups()) && Made() && rowgroup_ctr == 0 && cur_iMCU_row == old(cur_iMCU_row) + 1
      ensures !suspended && ctr == if old(suspended) then in_row_ctr + 1 else in_row_ctr
    {
      hide Holding, Made, Groups, Allocated;
      ctr := in_row_ctr;
      SendRow();
      if suspended {
        ctr := ctr + 1;
        suspended := false;
      }
    }

    /** The compressor takes the completed iMCU row; the main buffer is empty. */
    method SendRow()
      requires Allocated() && Holding(Groups()) && Made() && rowgroup_ctr == m.M && cur_iMCU_row < m.total
      modifies this`sent, this`rowgroup_ctr, this`cur_iMCU_row
      ensures Allocated() && Holding(Groups()) && Made() && rowgroup_ctr == 0 && cur_iMCU_row == old(cur_iMCU_row) + 1
    {
      ghost var g := Groups();
      StripsNext(m, cur_iMCU_row);
      hide RowBase, FirstRows, Strips, Group, Ring;
      sent := sent + [buffer[..]];
      assert buffer[..] == Strip(m, cur_iMCU_row);
      rowgroup_ctr := 0;
      cur_iMCU_row := cur_iMCU_row + 1;
      assert Groups() == g;
    }

    /** Valid, but for the application's view. */
    ghost predicate Ready()
      reads this, true_buffer, fake_buffer, buffer
    {
      && Allocated() && Holding(Groups()) && Held() < 2 * m.v && Made()
      && if suspended then rowgroup_ctr == m.M && cur_iMCU_row < m.total
         else rowgroup_ctr < m.M && (rows_to_go > 0 || cur_iMCU_row == m.total)
    }

    // The application ---------------------------------------------------------------------------------

    /** Returns the number of lines taken. */
    method JpegWriteScanlines(scanlines: seq<Row>, num_lines: nat, patience: nat) returns (row_ctr: nat)
      requires Valid() && num_lines <= |scanlines|
      requires forall i :: 0 <= i < num_lines && next_scanline + i < m.height ==>
          scanlines[i] == m.row(next_scanline + i)
      modifies this, true_buffer, buffer
      ensures Valid() && next_scanline == old(next_scanline) + row_ctr && cur_iMCU_row >= old(cur_iMCU_row)
      ensures num_lines > 0 ==> row_ctr <= num_lines
      ensures patience >= m.total && num_lines > 0 ==>
        next_scanline == if old(next_scanline) + num_lines < m.height then old(next_scanline) + num_lines else m.height
    {
      hide Holding, Made, Allocated;
      var lines, rows_left := num_lines, m.height - next_scanline;
      if lines > rows_left {
        lines := rows_left;
      }
      row_ctr := ProcessData(scanlines, lines, patience);
      next_scanline := next_scanline + row_ctr;
    }

    /** The application sees the whole image taken exactly when the compressor has all of it. */
    lemma CompleteWhenSent()
      requires Valid()
      ensures next_scanline == m.height <==> cur_iMCU_row == m.total
      ensures |sent| == cur_iMCU_row && sent == Strips(m, cur_iMCU_row)
    {
      hide Ring, FirstRows, RowBase, Strips;
      if cur_iMCU_row == m.total && !suspended {
        NothingMore();
      }
    }

    lemma Bounds()
      requires Valid()
      ensures next_scanline <= |converted| <= m.height && converted == FirstRows(m, |converted|)
      ensures cur_iMCU_row <= m.total
    {
    }

    /** No row groups are left to make after the last iMCU row. */
    lemma NothingMore()
      requires Allocated() && Holding(Groups()) && cur_iMCU_row == m.total
      ensures rows_to_go == 0
    {
      hide Ring, FirstRows;
      MulAssoc(m.total, m.M, m.v);
      MulLe(m.total * m.M, Groups(), m.v);
    }
  }

  lemma OneMore(m: Image, g: int)
    ensures RowBase(m, g + 1) == RowBase(m, g) + m.v
  {
  }

  lemma InRange(m: Image, y: int)
    ensures 0 <= y < m.height ==> Endless(m, y) == m.row(y)
  {
  }

  /** The row repeated is the image's last. */
  lemma LastRow(m: Image, color: seq<Row>, trg: int, base: int, e: int, first: int)
    requires Good(m) && Ring(m, color, trg, base, 0 - m.v, e) && Start(m, trg) && 0 < first <= e < 2 * m.v
    requires base + first >= m.height
    ensures var k := Physical(m.v, trg + first - 1);
      0 <= k < |color| && color[k] == Endless(m, base + e)
  {
    assert Cell(color, m.v, trg + first - 1) == Endless(m, base + first - 1);
  }

  // Whole images ---------------------------------------------------------------------------------------

  /** One call of jpeg_write_scanlines: rows offered, and iMCU rows the compressor will take. */
  datatype Call = Call(num_lines: nat, patience: nat)

  /** The application offers rows from next_scanline on, in slices of any size, while the compressor
      suspends at will: every row is converted once, the compressor gets the iMCU rows of the image in
      order, and the image is complete for the one exactly when it is for the other. */
  method WriteImage(m: Image, calls: seq<Call>)
    returns (sent: seq<seq<seq<Row>>>, next_scanline: nat, ghost converted: seq<Row>)
    requires Good(m)
    ensures |sent| <= m.total && sent == Strips(m, |sent|)
    ensures next_scanline <= |converted| <= m.height && converted == FirstRows(m, |converted|)
    ensures next_scanline == m.height <==> |sent| == m.total
    ensures (forall k :: 0 <= k < |calls| ==> calls[k].num_lines > 0 && calls[k].patience >= m.total) ==>
              |calls| >= m.height ==> next_scanline == m.height
  {
    var c := new Compressor(m);
    c.Bounds();
    hide Strips, FirstRows;
    var k := 0;
    while k < |calls|
      invariant fresh(c) && fresh(c.true_buffer) && fresh(c.buffer) && c.m == m && c.Valid()
      invariant 0 <= k <= |calls| && c.next_scanline <= m.height
      invariant (forall j :: 0 <= j < |calls| ==> calls[j].num_lines > 0 && calls[j].patience >= m.total) ==>
        c.next_scanline >= k || c.next_scanline == m.height
    {
      var offered := Offer(m, c.next_scanline, calls[k].num_lines);
      var row_ctr := c.JpegWriteScanlines(offered, calls[k].num_lines, calls[k].patience);
      c.Bounds();
      k := k + 1;
    }
    c.CompleteWhenSent();
    c.Bounds();
    sent, next_scanline, converted := c.sent, c.next_scanline, c.converted;
  }

  /** The rows an application holds ready from row y on. */
  method Offer(m: Image, y: nat, n: nat) returns (rows: seq<Row>)
    ensures |rows| == n && forall i :: 0 <= i < n ==> rows[i] == m.row(y + i)
  {
    rows := seq(n, i requires 0 <= i < n => m.row(y + i));
  }

  /** total_iMCU_rows as the compressor computes it, whatever the scaling. */
  lemma TotalRows(v: nat, M: nat, height: nat, block_size: nat, row: int -> Row)
    requires v > 0 && M > 0 && height > 0 && block_size > 0
    ensures v * block_size > 0 && height * block_size >= 0
    ensures RoundUp(height * block_size, M) >= 0 && RoundUp(RoundUp(height * block_size, M), v * block_size) >= 0
    ensures Good(Image(v, M, height, RoundUp(RoundUp(height * block_size, M), v * block_size), row))
  {
    MulLe(1, v, block_size);
    MulLe(1, height, block_size);
    var j := RoundUp(height * block_size, M);
    RoundUpIs(height * block_size, M, j);
    if j <= 0 { MulLe(j, 0, M); }
    var t := RoundUp(j, v * block_size);
    RoundUpIs(j, v * block_size, t);
    if t <= 0 { MulLe(t, 0, v * block_size); }
    Scaled(v, M, height, block_size, t);
    Scaled(v, M, height, block_size, t - 1);
  }

  lemma Scaled(v: nat, M: nat, height: nat, block_size: nat, t: int)
    requires v > 0 && M > 0 && block_size > 0 && height * block_size >= 0
    ensures RoundUp(height * block_size, M) <= t * (v * block_size) <==> height <= t * (M * v)
  {
    RoundUpLe(height * block_size, M, t * (v * block_size));
    Regroup(t, v, block_size, M);
    if height <= t * (M * v) {
      MulLe(height, t * (M * v), block_size);
    } else {
      MulLt(t * (M * v), height, block_size);
    }
  }

  lemma Regroup(t: int, v: int, b: int, k: int)
    ensures t * (v * b) * k == t * (k * v) * b
  {
  }
}
