/** The decompressor's main controller with context rows: whatever the decoder and the consumer do,
    every row group comes out once, in order, with its true neighbours. */
module ContextMain {
  import opened Numbers
  import opened ContextRows

  datatype ContextState = PrepareForIMCU | ProcessIMCU | PostponedRow

  class MainController {
    const s: Shape
    /** Row y of the component as the decoder delivers it, padding rows included. */
    const decoded: int -> Row
    const buffer: array<Row>
    const xbuffer0: array<int>
    const xbuffer1: array<int>
    var buffer_full: bool
    var rowgroup_ctr: nat
    var whichptr: int
    var context_state: ContextState
    var rowgroups_avail: nat
    var iMCU_row_ctr: nat

    ghost predicate Allocated() {
      && Good(s) && xbuffer0 != xbuffer1
      && buffer.Length == IMCUHeight(s) + 2 * s.rgroup
      && xbuffer0.Length == xbuffer1.Length == IMCUHeight(s) + 4 * s.rgroup
    }

    ghost function List(): seq<int>
      reads this, xbuffer0, xbuffer1
    {
      if whichptr == 0 then xbuffer0[..] else xbuffer1[..]
    }

    ghost predicate TopLists()
      requires Allocated()
      reads xbuffer0, xbuffer1
    {
      Top(s, xbuffer0[..]) && Core(s, xbuffer1[..], 1)
    }

    ghost predicate NormalLists()
      requires Allocated()
      reads xbuffer0, xbuffer1
    {
      Wrapped(s, xbuffer0[..], 0) && Wrapped(s, xbuffer1[..], 1)
    }

    /** jinit_d_main_controller and start_pass_main. */
    constructor (shape: Shape, decoded: int -> Row)
      requires Good(shape)
      ensures s == shape && this.decoded == decoded && Allocated() && TopLists()
      ensures !buffer_full && whichptr == 0 && context_state == PrepareForIMCU && iMCU_row_ctr == 0 && rowgroup_ctr == 0
      ensures fresh(buffer) && fresh(xbuffer0) && fresh(xbuffer1)
    {
      s := shape;
      this.decoded := decoded;
      buffer := new Row[shape.rgroup * (shape.M + 2)](_ => []);
      xbuffer0 := new int[shape.rgroup * (shape.M + 4)](_ => 0);
      xbuffer1 := new int[shape.rgroup * (shape.M + 4)](_ => 0);
      buffer_full, rowgroup_ctr, whichptr, context_state, rowgroups_avail, iMCU_row_ctr :=
        false, 0, 0, PrepareForIMCU, 0, 0;
      new;
      Sized(s);
      MakeFunnyPointers();
    }

    /** Both row lists; the second swaps the last two pairs of row groups. */
    method MakeFunnyPointers()
      requires Allocated()
      modifies xbuffer0, xbuffer1
      ensures TopLists()
    {
      Sized(s);
      hide IMCUHeight;
      var rgroup, big := s.rgroup, IMCUHeight(s);
      CopyPointers(big);
      SwapPointers(big);
      var i := 0;
      while i < rgroup
        invariant 0 <= i <= rgroup && Core(s, xbuffer0[..], 0) && Core(s, xbuffer1[..], 1)
        invariant forall x {:trigger At(s, xbuffer0[..], x)} :: 0 - rgroup <= x < i - rgroup ==>
            At(s, xbuffer0[..], x) == 0
      {
        ghost var a := xbuffer0[..];
        assert At(s, a, 0) == Physical(s, 0, 0);
        xbuffer0[i] := xbuffer0[0 + rgroup];
        PutAt(s, a, i, a[rgroup]);
        assert xbuffer0[..] == a[i := a[rgroup]];
        i := i + 1;
      }
    }

    /** First copies the workspace rows as they are. */
    method CopyPointers(big: nat)
      requires Allocated() && big == IMCUHeight(s)
      modifies xbuffer0, xbuffer1
      ensures forall x :: 0 <= x < big + 2 * s.rgroup ==> At(s, xbuffer0[..], x) == x && At(s, xbuffer1[..], x) == x
    {
      hide IMCUHeight;
      var rgroup, i := s.rgroup, 0;
      while i < big + 2 * rgroup
        invariant 0 <= i <= big + 2 * rgroup
        invariant forall x :: 0 <= x < i ==> At(s, xbuffer0[..], x) == x && At(s, xbuffer1[..], x) == x
      {
        ghost var a0, a1 := xbuffer0[..], xbuffer1[..];
        xbuffer0[i + rgroup] := i;
        xbuffer1[i + rgroup] := i;
        PutAt(s, a0, i + rgroup, i);
        PutAt(s, a1, i + rgroup, i);
        assert xbuffer0[..] == a0[i + rgroup := i] && xbuffer1[..] == a1[i + rgroup := i];
        i := i + 1;
      }
    }

    /** In the second list, puts the last four row groups in swapped order. */
    method SwapPointers(big: nat)
      requires Allocated() && big == IMCUHeight(s) && big >= 2 * s.rgroup
      requires forall x :: 0 <= x < big + 2 * s.rgroup ==> At(s, xbuffer0[..], x) == x && At(s, xbuffer1[..], x) == x
      modifies xbuffer1
      ensures Core(s, xbuffer0[..], 0) && Core(s, xbuffer1[..], 1)
    {
      hide IMCUHeight;
      var rgroup, i := s.rgroup, 0;
      while i < rgroup * 2
        invariant 0 <= i <= rgroup * 2
        invariant forall x {:trigger At(s, xbuffer1[..], x)} :: 0 <= x < big + 2 * rgroup ==>
          At(s, xbuffer1[..], x) ==
            if big - 2 * rgroup <= x < big - 2 * rgroup + i || big <= x < big + i then Physical(s, 1, x) else x
      {
        ghost var a := xbuffer1[..];
        ghost var lo, hi := big - 2 * rgroup + i, big + i;
        xbuffer1[big - 2 * rgroup + i + rgroup] := big + i;
        xbuffer1[big + i + rgroup] := big - 2 * rgroup + i;
        PutAt(s, a, lo + rgroup, hi);
        PutAt(s, a[lo + rgroup := hi], hi + rgroup, lo);
        assert xbuffer1[..] == a[lo + rgroup := hi][hi + rgroup := lo];
        i := i + 1;
      }
    }

    /** From the top-of-image state to the normal state. */
    method SetWraparoundPointers()
      requires Allocated()
      modifies xbuffer0, xbuffer1
      ensures old(Core(s, xbuffer0[..], 0) && Core(s, xbuffer1[..], 1)) ==> NormalLists()
    {
      Sized(s);
      hide IMCUHeight, Core;
      ghost var cored := Core(s, xbuffer0[..], 0) && Core(s, xbuffer1[..], 1);
      var rgroup, big := s.rgroup, IMCUHeight(s);
      var i := 0;
      WrapStart(s, xbuffer0[..], xbuffer1[..]);
      hide Wrapping;
      while i < rgroup
        invariant 0 <= i <= rgroup && (cored ==> Wrapping(s, xbuffer0[..], 0, i) && Wrapping(s, xbuffer1[..], 1, i))
      {
        ghost var a0, a1 := xbuffer0[..], xbuffer1[..];
        xbuffer0[i] := xbuffer0[big + rgroup + i + rgroup];
        xbuffer1[i] := xbuffer1[big + rgroup + i + rgroup];
        xbuffer0[big + 2 * rgroup + i + rgroup] := xbuffer0[i + rgroup];
        xbuffer1[big + 2 * rgroup + i + rgroup] := xbuffer1[i + rgroup];
        assert xbuffer0[..] == a0[i := a0[big + 2 * rgroup + i]][big + 3 * rgroup + i := a0[i + rgroup]];
        assert xbuffer1[..] == a1[i := a1[big + 2 * rgroup + i]][big + 3 * rgroup + i := a1[i + rgroup]];
        if cored {
          WrapOne(s, a0, xbuffer0[..], 0, i);
          WrapOne(s, a1, xbuffer1[..], 1, i);
        }
        i := i + 1;
      }
      WrapEnd(s, xbuffer0[..], xbuffer1[..]);
    }

    /** Repeats the last sample row at the bottom of the image, and counts the real row groups. */
    method SetBottomPointers()
      requires Allocated() && 0 <= whichptr <= 1
      modifies xbuffer0, xbuffer1, `rowgroups_avail
      ensures Bottomed(s, List(), old(List())) && rowgroups_avail == LastGroups(s)
    {
      RowsLeft(s);
      Sized(s);
      var rgroup, iMCUheight := s.rgroup, IMCUHeight(s);
      var rows_left := s.height % iMCUheight;
      if rows_left == 0 {
        rows_left := iMCUheight;
      }
      rowgroups_avail := (rows_left - 1) / rgroup + 1;
      assert rowgroups_avail == LastGroups(s);
      hide IMCUHeight, LastRows;
      var xbuf := if whichptr == 0 then xbuffer0 else xbuffer1;
      var i := 0;
      while i < rgroup * 2
        invariant 0 <= i <= rgroup * 2 && Sizes(s, xbuf[..]) && rowgroups_avail == LastGroups(s)
        invariant forall x {:trigger At(s, xbuf[..], x)} :: 0 - rgroup <= x < rows_left ==>
            At(s, xbuf[..], x) == At(s, old(List()), x)
        invariant forall x {:trigger At(s, xbuf[..], x)} :: rows_left <= x < rows_left + i ==>
          At(s, xbuf[..], x) == At(s, old(List()), rows_left - 1)
      {
        ghost var a := xbuf[..];
        GetAt(s, a, rows_left - 1);
        xbuf[rows_left + i + rgroup] := xbuf[rows_left - 1 + rgroup];
        PutAt(s, a, rows_left + i + rgroup, a[rows_left - 1 + rgroup]);
        assert xbuf[..] == a[rows_left + i + rgroup := a[rows_left - 1 + rgroup]];
        i := i + 1;
      }
    }

    // The decoder and the consumer --------------------------------------------------------------------

    /** The decoder writes the next iMCU row through the current list. It suspends after given rows,
        and then starts over. */
    method DecompressData(given: nat) returns (ok: bool)
      requires Allocated() && 0 <= whichptr <= 1 && Core(s, List(), whichptr)
      requires iMCU_row_ctr > 0 ==> Saved(s, decoded, buffer[..], whichptr, iMCU_row_ctr)
      modifies buffer
      ensures ok <==> given >= IMCUHeight(s)
      ensures ok ==> Loaded(s, decoded, buffer[..], whichptr, iMCU_row_ctr + 1)
      ensures iMCU_row_ctr > 0 ==> Saved(s, decoded, buffer[..], whichptr, iMCU_row_ctr)
    {
      Sized(s);
      var first, big := Base(s, iMCU_row_ctr), IMCUHeight(s);
      hide IMCUHeight, Base, Writing, Saved, Loaded;
      var xbuf := if whichptr == 0 then xbuffer0 else xbuffer1;
      ghost var saved := buffer[..];
      var i := 0;
      WriteStart(s, decoded, whichptr, first, saved);
      while i < big && i < given
        invariant 0 <= i <= big && 0 <= i <= given
        invariant Writing(s, decoded, buffer[..], whichptr, i, first, saved)
      {
        ghost var b := buffer[..];
        assert At(s, xbuf[..], i) == Physical(s, whichptr, i);
        GetAt(s, xbuf[..], i);
        WriteOne(s, decoded, b, whichptr, i, first, saved);
        assert buffer.Length == |b|;
        buffer[xbuf[i + s.rgroup]] := decoded(first + i);
        assert buffer[..] == b[Physical(s, whichptr, i) := decoded(first + i)];
        i := i + 1;
      }
      WriteEnd(s, decoded, buffer[..], whichptr, iMCU_row_ctr, i, saved);
      ok := i >= big;
    }

    /** The consumer takes row groups, each with its context, until its output is full. */
    method PostProcessData(room: nat, ghost first: int) returns (got: seq<seq<Row>>, left: nat)
      requires Allocated() && rowgroup_ctr <= rowgroups_avail
      requires AllReady(s, decoded, List(), buffer[..], rowgroup_ctr, rowgroups_avail, first)
      modifies `rowgroup_ctr
      ensures old(rowgroup_ctr) <= rowgroup_ctr <= rowgroups_avail && |got| == rowgroup_ctr - old(rowgroup_ctr)
      ensures got == Windows(s, decoded, first + old(rowgroup_ctr), |got|)
      ensures |got| + left == room && (left > 0 ==> rowgroup_ctr == rowgroups_avail)
    {
      hide Ready, Window;
      got, left := [], room;
      while rowgroup_ctr < rowgroups_avail && left > 0
        invariant old(rowgroup_ctr) <= rowgroup_ctr <= rowgroups_avail
        invariant |got| == rowgroup_ctr - old(rowgroup_ctr) && |got| + left == room
        invariant got == Windows(s, decoded, first + old(rowgroup_ctr), |got|)
      {
        assert Ready(s, decoded, List(), buffer[..], rowgroup_ctr, first);
        var group := RowsAround(rowgroup_ctr, first);
        got := got + [group];
        rowgroup_ctr, left := rowgroup_ctr + 1, left - 1;
      }
    }

    /** The rows of row group c of the current list, with a row group above and below. */
    method RowsAround(c: nat, ghost first: int) returns (rows: seq<Row>)
      requires Allocated() && Ready(s, decoded, List(), buffer[..], c, first)
      ensures rows == Window(s, decoded, first + c)
    {
      hide IMCUHeight, InLast, Seen;
      var xbuf := if whichptr == 0 then xbuffer0 else xbuffer1;
      rows := [];
      var i := 0;
      var start := s.rgroup * c;
      while i < 3 * s.rgroup
        invariant 0 <= i <= 3 * s.rgroup && |rows| == i
        invariant forall k :: 0 <= k < i ==>
          rows[k] == Seen(s, decoded, InLast(s, first + c), (first + c) * s.rgroup - s.rgroup + k)
      {
        var x := start - s.rgroup + i;
        assert 0 <= At(s, List(), x) < buffer.Length;
        assert buffer[..][At(s, List(), x)] ==
          Seen(s, decoded, InLast(s, first + c), (first + c) * s.rgroup - start + x);
        rows := rows + [buffer[xbuf[start + i]]];
        i := i + 1;
      }
    }

    // Process some data ---------------------------------------------------------------------------------

    /** iMCU row iMCU_row_ctr - 1 is in the workspace, the lists not yet changed for it. */
    ghost predicate RowLoaded()
      requires Allocated()
      reads this, buffer, xbuffer0, xbuffer1
    {
      && 1 <= iMCU_row_ctr <= s.total && Loaded(s, decoded, buffer[..], whichptr, iMCU_row_ctr)
      && if iMCU_row_ctr == 1 then whichptr == 0 && TopLists()
         else NormalLists() && Saved(s, decoded, buffer[..], whichptr, iMCU_row_ctr - 1)
    }

    /** The row groups being processed can be seen with their context. */
    ghost predicate Processing()
      requires Allocated()
      reads this, buffer, xbuffer0, xbuffer1
    {
      && 1 <= iMCU_row_ctr <= s.total && rowgroup_ctr <= rowgroups_avail
      && AllReady(s, decoded, List(), buffer[..], 0, rowgroups_avail, GroupBase(s, iMCU_row_ctr))
      && if iMCU_row_ctr == s.total then rowgroups_avail == LastGroups(s) else rowgroups_avail == s.M - 1 && RowLoaded()
    }

    ghost predicate Postponed() reads this {
      rowgroup_ctr == s.M + 1 && rowgroups_avail == s.M + 2
    }

    ghost predicate Valid()
      reads this, buffer, xbuffer0, xbuffer1
    {
      && Allocated() && 0 <= whichptr <= 1
      && if buffer_full then
           match context_state
           case PostponedRow => iMCU_row_ctr > 1 && RowLoaded() && Postponed()
           case PrepareForIMCU => iMCU_row_ctr > 1 && RowLoaded()
           case ProcessIMCU => Processing() && rowgroup_ctr < rowgroups_avail
         else
           match context_state
           case PostponedRow =>
             && 1 <= iMCU_row_ctr <= s.total
             && (iMCU_row_ctr < s.total ==>
                   NormalLists() && Saved(s, decoded, buffer[..], whichptr, iMCU_row_ctr) && Postponed())
           case PrepareForIMCU => iMCU_row_ctr == 0 && whichptr == 0 && TopLists()
           case ProcessIMCU => false
    }

    /** Row groups handed to the consumer so far. */
    ghost function Delivered(): int
      requires Good(s)
      reads this
    {
      if buffer_full then
        match context_state
        case PostponedRow => GroupBase(s, iMCU_row_ctr) - 1
        case PrepareForIMCU => GroupBase(s, iMCU_row_ctr)
        case ProcessIMCU => GroupBase(s, iMCU_row_ctr) + rowgroup_ctr
      else if context_state == PrepareForIMCU then 0
      else if iMCU_row_ctr < s.total then GroupBase(s, iMCU_row_ctr + 1) - 1
      else Groups(s)
    }

    /** All the row groups have been handed out. */
    predicate Finished() reads this {
      !buffer_full && context_state == PostponedRow && iMCU_row_ctr >= s.total
    }

    /** Short of its end, a pass still owes row groups. */
    lemma Bounded()
      requires Valid()
      ensures if Finished() then Delivered() == Groups(s) else Delivered() < Groups(s)
    {
      AtLeastOne(s);
      hide LastGroups, IMCUHeight, AllReady, Loaded, Saved;
      var n := iMCU_row_ctr;
      if n < s.total {
        MulLe(n, s.total - 1, s.M);
        OneMore(n, s.M);
      }
      if 1 <= n {
        MulLe(0, n - 1, s.M);
      }
    }

    /** The row group left over from the iMCU row before. */
    method ProcessPostponed(room: nat) returns (got: seq<seq<Row>>, left: nat)
      requires Valid() && buffer_full && context_state == PostponedRow
      modifies `rowgroup_ctr, `context_state
      ensures Valid() && |got| + left == room
      ensures got == Windows(s, decoded, old(Delivered()), |got|) && Delivered() == old(Delivered()) + |got|
      ensures if room > 0 then context_state == PrepareForIMCU && |got| == 1 else context_state == PostponedRow
    {
      ghost var n, a, b := iMCU_row_ctr, List(), buffer[..];
      ShowsPostponed(s, decoded, a, b, whichptr, n);
      PostponedIsReady(s, decoded, a, b, n);
      hide AllReady, Windows, GroupBase, IMCUHeight, Loaded, Saved, Wrapped, Top, Core;
      got, left := PostProcessData(room, GroupBase(s, n) - s.M - 2);
      if rowgroup_ctr < rowgroups_avail {
        return;
      }
      context_state := PrepareForIMCU;
    }

    /** The iMCU row can be seen through the current list. */
    lemma Visible()
      requires Allocated() && 0 <= whichptr <= 1 && RowLoaded()
      ensures var rows := if iMCU_row_ctr < s.total then IMCUHeight(s) else LastRows(s);
        Shows(s, decoded, List(), buffer[..], 0 - s.rgroup, rows, Base(s, iMCU_row_ctr - 1), iMCU_row_ctr == s.total)
    {
      hide Loaded, Saved, Shows, Top, Wrapped, LastRows, IMCUHeight, Base;
      ShowsRow(s, decoded, List(), buffer[..], whichptr, iMCU_row_ctr);
    }

    /** In the last iMCU row all real row groups are ready. */
    method PrepareLast(ghost a: seq<int>, ghost b: seq<Row>)
      requires Allocated() && 0 <= whichptr <= 1 && a == List() && b == buffer[..]
      requires Shows(s, decoded, a, b, 0 - s.rgroup, LastRows(s), Base(s, s.total - 1), true)
      modifies this`rowgroups_avail, xbuffer0, xbuffer1
      ensures AllReady(s, decoded, List(), b, 0, rowgroups_avail, GroupBase(s, s.total))
      ensures 1 <= rowgroups_avail == LastGroups(s)
    {
      hide AllReady, GroupBase, IMCUHeight, Shows, LastRows, Base, Bottomed, LastGroups;
      SetBottomPointers();
      ShowsBottom(s, decoded, List(), a, b);
      LastIsReady(s, decoded, List(), b);
    }

    /** Prepares the first M - 1 row groups of an iMCU row, or all the real ones of the last. */
    method Prepare()
      requires Allocated() && 0 <= whichptr <= 1 && RowLoaded() && buffer_full && context_state == PrepareForIMCU
      modifies this`rowgroup_ctr, this`rowgroups_avail, this`context_state, xbuffer0, xbuffer1
      ensures Valid() && context_state == ProcessIMCU && Delivered() == old(Delivered()) && rowgroup_ctr == 0
    {
      hide AllReady, GroupBase, IMCUHeight, Loaded, Saved, Shows, LastRows, Base, Top, Wrapped, Core, LastGroups;
      hide Groups;
      ghost var n, a, b := iMCU_row_ctr, List(), buffer[..];
      Visible();
      rowgroup_ctr := 0;
      rowgroups_avail := s.M - 1;
      if iMCU_row_ctr == s.total {
        PrepareLast(a, b);
      } else {
        RowIsReady(s, decoded, a, b, n);
      }
      context_state := ProcessIMCU;
    }

    /** Feeds the prepared row groups, and when they are gone turns to the other list. */
    method Feed(room: nat) returns (got: seq<seq<Row>>, left: nat)
      requires Valid() && buffer_full && context_state == ProcessIMCU
      modifies this, xbuffer0, xbuffer1
      ensures Valid() && |got| + left == room && (room > 0 ==> |got| > 0) && (left > 0 ==> !buffer_full)
      ensures got == Windows(s, decoded, old(Delivered()), |got|) && Delivered() == old(Delivered()) + |got|
    {
      ghost var n := iMCU_row_ctr;
      ReadyLater(s, decoded, List(), buffer[..], rowgroup_ctr, rowgroups_avail, GroupBase(s, n));
      hide AllReady, Windows, IMCUHeight, GroupBase;
      got, left := PostProcessData(room, GroupBase(s, n));
      if rowgroup_ctr < rowgroups_avail {
        return;
      }
      TurnOver();
    }

    /** After the first iMCU row, changes the lists to the normal state; prepares to load the next
        row through the other list, the last row group of this one postponed. */
    method TurnOver()
      requires Allocated() && 0 <= whichptr <= 1 && Processing() && rowgroup_ctr == rowgroups_avail
      requires buffer_full && context_state == ProcessIMCU
      modifies this, xbuffer0, xbuffer1
      ensures Valid() && Delivered() == old(Delivered()) && !buffer_full
    {
      Flips(s, decoded, buffer[..], whichptr, iMCU_row_ctr);
      OneMore(iMCU_row_ctr, s.M);
      hide AllReady, IMCUHeight, Loaded, Saved, LastRows, Wrapped, LastGroups, Core;
      if iMCU_row_ctr == 1 {
        SetWraparoundPointers();
      }
      whichptr := 1 - whichptr;
      buffer_full := false;
      rowgroup_ctr := s.M + 1;
      rowgroups_avail := s.M + 2;
      context_state := PostponedRow;
    }

    /** Whatever the decoder gives and the room in the output, what comes out are the next row
        groups with their context; nothing stands still unless input or room ran out. */
    method ProcessData(given: nat, room: nat) returns (got: seq<seq<Row>>, left: nat)
      requires Valid() && !Finished()
      modifies this, buffer, xbuffer0, xbuffer1
      ensures Valid() && |got| + left == room
      ensures got == Windows(s, decoded, old(Delivered()), |got|) && Delivered() == old(Delivered()) + |got|
      ensures given >= IMCUHeight(s) && room > 0 ==> |got| > 0
      ensures given >= IMCUHeight(s) && left > 0 ==> !buffer_full
    {
      got, left := [], room;
      if !buffer_full {
        var ok := ReadRow(given);
        if !ok {
          return;
        }
      }
      if context_state == PostponedRow {
        got, left := ProcessPostponed(left);
        if context_state == PostponedRow || left == 0 {
          return;
        }
      }
      if context_state == PrepareForIMCU {
        Prepare();
      }
      ghost var before := |got|;
      var more;
      more, left := Feed(left);
      WindowsConcat(s, decoded, old(Delivered()), before, |more|);
      got := got + more;
    }

    /** The list is in order, and the saved row groups of the previous iMCU row are in place. */
    lemma Loadable()
      requires Valid() && !Finished() && !buffer_full
      ensures Core(s, List(), whichptr) && GroupBase(s, 1) == 0
      ensures iMCU_row_ctr > 0 ==> Saved(s, decoded, buffer[..], whichptr, iMCU_row_ctr)
    {
      hide AllReady, IMCUHeight, Loaded, Saved, Core;
    }

    /** Reads input data if the main buffer is not filled yet. */
    method ReadRow(given: nat) returns (ok: bool)
      requires Valid() && !Finished() && !buffer_full
      modifies this, buffer
      ensures Allocated() && 0 <= whichptr <= 1 && Delivered() == old(Delivered())
      ensures ok <==> given >= IMCUHeight(s)
      ensures if ok then RowLoaded() && buffer_full && (Valid() || context_state == PrepareForIMCU)
              else Valid() && !buffer_full
    {
      hide AllReady, IMCUHeight, Loaded, Saved, GroupBase, Top, Wrapped, Core, LastGroups, Groups, LastRows;
      Loadable();
      ok := DecompressData(given);
      if !ok {
        return;
      }
      buffer_full := true;
      iMCU_row_ctr := iMCU_row_ctr + 1;
    }
  }

  /** The first n pointers of both ends wrapped around. */
  ghost predicate Wrapping(s: Shape, a: seq<int>, w: int, n: nat) {
    && Core(s, a, w)
    && (forall x {:trigger At(s, a, x)} :: 0 - s.rgroup <= x < n - s.rgroup ==>
          At(s, a, x) == Physical(s, w, x + IMCUHeight(s) + 2 * s.rgroup))
    && forall x {:trigger At(s, a, x)} :: IMCUHeight(s) + 2 * s.rgroup <= x < IMCUHeight(s) + 2 * s.rgroup + n ==>
         At(s, a, x) == Physical(s, w, x - IMCUHeight(s) - 2 * s.rgroup)
  }

  lemma WrapStart(s: Shape, a: seq<int>, b: seq<int>)
    ensures Core(s, a, 0) && Core(s, b, 1) ==> Wrapping(s, a, 0, 0) && Wrapping(s, b, 1, 0)
  {
    hide Core;
  }

  lemma WrapEnd(s: Shape, a: seq<int>, b: seq<int>)
    ensures Wrapping(s, a, 0, s.rgroup) && Wrapping(s, b, 1, s.rgroup) ==> Wrapped(s, a, 0) && Wrapped(s, b, 1)
  {
    hide Core;
  }

  lemma WrapOne(s: Shape, a: seq<int>, b: seq<int>, w: int, i: nat)
    requires Good(s) && Wrapping(s, a, w, i) && i < s.rgroup
    requires var big := IMCUHeight(s);
      b == a[i := a[big + 2 * s.rgroup + i]][big + 3 * s.rgroup + i := a[i + s.rgroup]]
    ensures Wrapping(s, b, w, i + 1)
  {
    Sized(s);
    hide IMCUHeight, At;
    var big := IMCUHeight(s);
    var k, v := i, At(s, a, big + s.rgroup + i);
    var kk, vv := big + 3 * s.rgroup + i, At(s, a, i);
    GetAt(s, a, big + s.rgroup + i);
    GetAt(s, a, i);
    PutAt(s, a, k, v);
    PutAt(s, a[k := v], kk, vv);
  }

  /** The first i rows of an iMCU row written through list w, the saved groups as they were. */
  ghost predicate Writing(s: Shape, f: int -> Row, b: seq<Row>, w: int, i: nat, first: int, saved: seq<Row>) {
    && |b| == |saved| == IMCUHeight(s) + 2 * s.rgroup && i <= IMCUHeight(s) && IMCUHeight(s) >= 2 * s.rgroup
    && (forall x :: 0 <= x < i ==> b[Physical(s, w, x)] == f(first + x))
    && forall x :: IMCUHeight(s) <= x < |b| ==> b[Physical(s, w, x)] == saved[Physical(s, w, x)]
  }

  lemma WriteStart(s: Shape, f: int -> Row, w: int, first: int, saved: seq<Row>)
    requires Good(s) && |saved| == IMCUHeight(s) + 2 * s.rgroup
    ensures Writing(s, f, saved, w, 0, first, saved)
  {
    Sized(s);
  }

  lemma WriteEnd(s: Shape, f: int -> Row, b: seq<Row>, w: int, n: int, i: nat, saved: seq<Row>)
    requires Writing(s, f, b, w, i, Base(s, n), saved)
    ensures i == IMCUHeight(s) ==> Loaded(s, f, b, w, n + 1)
    ensures Saved(s, f, saved, w, n) ==> Saved(s, f, b, w, n)
  {
    hide IMCUHeight, Base, Physical;
  }

  lemma WriteOne(s: Shape, f: int -> Row, b: seq<Row>, w: int, i: nat, first: int, saved: seq<Row>)
    requires Writing(s, f, b, w, i, first, saved) && i < IMCUHeight(s) && 0 <= w <= 1
    ensures 0 <= Physical(s, w, i) < |b|
    ensures Writing(s, f, b[Physical(s, w, i) := f(first + i)], w, i + 1, first, saved)
  {
    hide IMCUHeight;
    var b1 := b[Physical(s, w, i) := f(first + i)];
    forall x | 0 <= x < |b| && x != i ensures b1[Physical(s, w, x)] == b[Physical(s, w, x)] {
      assert Physical(s, w, x) != Physical(s, w, i);
    }
  }

  lemma AtLeastOne(s: Shape)
    requires Good(s)
    ensures LastGroups(s) >= 1
  {
  }

  lemma RowsLeft(s: Shape)
    requires Good(s)
    ensures IMCUHeight(s) > 0
    ensures LastRows(s) == if s.height % IMCUHeight(s) == 0 then IMCUHeight(s) else s.height % IMCUHeight(s)
  {
    Sized(s);
    hide IMCUHeight;
    var big := IMCUHeight(s);
    if LastRows(s) == big {
      OneMore(s.total, big);
      ModUnique(s.height, big, s.total, 0);
    } else {
      ModUnique(s.height, big, s.total - 1, LastRows(s));
    }
  }

  lemma Flips(s: Shape, f: int -> Row, b: seq<Row>, w: int, n: int)
    requires Good(s) && 1 <= n <= s.total && 0 <= w <= 1
    ensures Loaded(s, f, b, w, n) ==> Saved(s, f, b, 1 - w, n)
  {
    if Loaded(s, f, b, w, n) {
      Flip(s, f, b, w, n);
    }
  }

  lemma ReadyLater(s: Shape, f: int -> Row, a: seq<int>, b: seq<Row>, c: nat, hi: int, first: int)
    requires AllReady(s, f, a, b, 0, hi, first)
    ensures AllReady(s, f, a, b, c, hi, first)
  {
    hide Ready;
  }

  // Whole passes ---------------------------------------------------------------------------------------

  /** One call: rows the decoder can give, and row groups the output has room for. */
  datatype Call = Call(given: nat, room: nat)

  ghost predicate Starved(s: Shape, call: Call) {
    call.given < IMCUHeight(s) || call.room == 0
  }

  /** A pass, cut up in any way: the consumer gets the row groups of the image from the first on,
      in order, and all of them once enough calls have both input and room. */
  method RunPass(s: Shape, decoded: int -> Row, calls: seq<Call>) returns (got: seq<seq<Row>>)
    requires Good(s)
    ensures got == Windows(s, decoded, 0, |got|) && |got| <= Groups(s)
    ensures (forall k :: 0 <= k < |calls| ==> !Starved(s, calls[k])) && |calls| >= Groups(s) ==> |got| == Groups(s)
  {
    hide IMCUHeight, Windows;
    var main := new MainController(s, decoded);
    got := [];
    NoWindows(s, decoded);
    var k := 0;
    while k < |calls| && !main.Finished()
      invariant fresh(main) && fresh(main.buffer) && fresh(main.xbuffer0) && fresh(main.xbuffer1)
      invariant 0 <= k <= |calls| && main.s == s && main.decoded == decoded && main.Valid()
      invariant got == Windows(s, decoded, 0, |got|) && |got| == main.Delivered()
      invariant (forall j :: 0 <= j < |calls| ==> !Starved(s, calls[j])) && !main.Finished() ==> |got| >= k
    {
      var more, left := main.ProcessData(calls[k].given, calls[k].room);
      WindowsConcat(s, decoded, 0, |got|, |more|);
      got := got + more;
      assert !Starved(s, calls[k]) ==> |more| > 0;
      k := k + 1;
    }
    main.Bounded();
  }

  lemma NoWindows(s: Shape, f: int -> Row)
    ensures Windows(s, f, 0, 0) == []
  {
  }
}
