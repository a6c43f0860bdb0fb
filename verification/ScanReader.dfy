/** Reading a scan item by item (an item is one MCU), across restart markers, from a source
    whose bytes may arrive in any portions. */
module ScanReader {
  import opened Numbers
  import opened Bits
  import opened ByteStuffing
  import opened HuffmanDecoding
  import opened BitReader
  import opened Tokens
  import opened Segments
  import opened Restarts
  import HuffmanCodes

  // Reading tokens -------------------------------------------------------------------------

  /** Between MCUs, with the input in good order. */
  ghost predicate Live(reader: Reader)
    reads reader
  {
    reader.Valid() && reader.bits_left <= 32 && !reader.insufficient
  }

  /** HUFF_DECODE where the stream holds symbol s. */
  method ReadSymbol(reader: Reader, d: DTable, ghost t: HuffmanCodes.Table, ghost c: CTable, ghost s: nat,
                    ghost rest: seq<int>)
    returns (ok: bool, value: nat)
    requires Live(reader) && Matched(t, c, d) && s < 256 && c.si[s] > 0 && reader.Ahead() == TokenBits(c, Sym(s)) + rest
    modifies reader`pos, reader`marker, reader`get_buffer, reader`bits_left, reader`insufficient, reader`m, reader`held
    ensures Live(reader) && (old(reader.marker) != 0 ==> reader.marker != 0)
    ensures if ok then value == s && reader.Ahead() == rest else reader.avail < |reader.src| && reader.marker == 0
  {
    hide TokenBits, HuffDecode, Window;
    SymbolDecodes(t, c, d, s, reader.Ahead(), rest);
    var x: int;
    ok, x := reader.HuffSymbol(d, t);
    value := if x >= 0 then x else 0;
  }

  /** GET_BITS(n) where the stream holds the low n bits of v. */
  method ReadBits(reader: Reader, n: nat, ghost v: int, ghost rest: seq<int>) returns (ok: bool, value: nat)
    requires Live(reader) && n <= 16 && reader.Ahead() == BitsOf(v, n) + rest
    modifies reader`pos, reader`marker, reader`get_buffer, reader`bits_left, reader`insufficient, reader`m, reader`held
    ensures Live(reader) && (old(reader.marker) != 0 ==> reader.marker != 0)
    ensures if ok then value == v % Pow2(n) && reader.Ahead() == rest
            else reader.avail < |reader.src| && reader.marker == 0
  {
    hide BitsOf, BitVal, Pow2;
    ValBitsOf(v, n);
    ghost var all := reader.Ahead();
    assert all[..n] == BitsOf(v, n) && all[n..] == rest;
    ok, value := reader.Receive(n);
  }

  /** A working state that the reader can go back to, as long as no marker has been met. */
  ghost predicate Resumable(reader: Reader, pos: nat, get_buffer: int, bits_left: int, m: nat, held: seq<int>)
    reads reader`avail, reader`code, reader`end
  {
    && IsBytes(reader.code) && m <= |reader.code| && reader.avail <= |reader.src|
    && InSource(reader.src, pos, reader.code, m, reader.end) && bits_left == |held| <= 32 && Holding(get_buffer, held)
  }

  ghost function BitsFrom(code: seq<int>, m: nat, held: seq<int>): seq<int> {
    held + if m <= |code| then ByteBits(code[m..]) else []
  }

  lemma CanResume(reader: Reader)
    requires Live(reader) && reader.marker == 0
    ensures Resumable(reader, reader.pos, reader.get_buffer, reader.bits_left, reader.m, reader.held)
    ensures reader.Ahead() == BitsFrom(reader.code, reader.m, reader.held)
  {
  }

  /** Going back to the state saved before an MCU. */
  method Rewind(reader: Reader, pos: nat, get_buffer: int, bits_left: int, ghost m: nat, ghost held: seq<int>)
    requires Resumable(reader, pos, get_buffer, bits_left, m, held) && reader.marker == 0 && !reader.insufficient
    modifies reader`pos, reader`get_buffer, reader`bits_left, reader`m, reader`held
    ensures Live(reader) && reader.Ahead() == BitsFrom(reader.code, m, held)
    ensures reader.pos == pos && reader.get_buffer == get_buffer && reader.bits_left == bits_left
  {
    hide Holding, InSource, ByteBits;
    reader.pos, reader.get_buffer, reader.bits_left := pos, get_buffer, bits_left;
    reader.m, reader.held := m, held;
  }

  /** Less than a byte ahead: all bytes have been taken. */
  lemma NoBytesLeft(reader: Reader)
    requires reader.Valid() && |reader.Ahead()| < 8
    ensures reader.m == |reader.code| && reader.bits_left < 8 && |Stuff(reader.code[reader.m..])| == 0
  {
    hide Stuff;
    NothingStuffed(reader.code[reader.m..]);
  }

  /** Going over the expected restart marker. */
  method Resync(reader: Reader, ghost next: seq<int>, ghost last: nat) returns (ok: bool)
    requires Live(reader) && |reader.Ahead()| < 8 && reader.discarded == 0 && reader.next_restart_num < 8
    requires reader.end + 1 <= |reader.src| && reader.src[reader.end] == 0xD0 + reader.next_restart_num
    requires IsBytes(next) && InSource(reader.src, reader.end + 1, next, 0, last)
    modifies reader`pos, reader`marker, reader`get_buffer, reader`bits_left, reader`insufficient,
             reader`m, reader`held, reader`discarded, reader`next_restart_num, reader`code, reader`end
    ensures Live(reader) && reader.discarded == 0
    ensures if ok then && reader.Ahead() == ByteBits(next) && reader.code == next && reader.end == last
                       && reader.next_restart_num == (old(reader.next_restart_num) + 1) % 8
            else && reader.avail < |reader.src| && reader.Ahead() == [] && reader.code == old(reader.code)
                 && reader.end == old(reader.end) && reader.next_restart_num == old(reader.next_restart_num)
  {
    hide InSource, IsBytes, Stuff, ByteBits;
    NoBytesLeft(reader);
    var expected, skipped;
    ok, expected, skipped := reader.Restart(next, last);
    NothingStuffed(reader.code[reader.m..]);
  }

  // Reading a scan -------------------------------------------------------------------------

  /** The items, their restart interval, the data bytes of the segments (the first of which
      starts at `start`), and the bits of each item, by segment. */
  datatype Plan<!T> = Plan(xs: seq<T>, interval: nat, start: nat, codes: seq<seq<int>>, bits: seq<seq<seq<int>>>)

  ghost predicate Shaped<T>(p: Plan<T>) {
    && |p.codes| == |p.bits| == |SegmentsOf(p.xs, p.interval)|
    && forall g :: 0 <= g < |p.bits| ==> |p.bits[g]| == |SegmentsOf(p.xs, p.interval)[g]|
  }

  ghost predicate GoodPlan<T>(p: Plan<T>, src: seq<int>) {
    && Shaped(p) && ScanAt(src, p.start, p.codes)
    && forall g :: 0 <= g < |p.bits| ==> Padded(p.codes[g], Concat(p.bits[g]))
  }

  /** The bits of segment g still to come before its item j. */
  ghost function Remaining<T>(p: Plan<T>, g: nat, j: nat): seq<int> {
    if !(Shaped(p) && g < |p.codes| && j <= |p.bits[g]|) then []
    else
      var done := |Concat(p.bits[g][..j])|;
      if done <= |ByteBits(p.codes[g])| then ByteBits(p.codes[g])[done..] else []
  }

  lemma {:induction false} ConcatPrefix<T>(s: seq<seq<T>>, j: nat) returns (rest: seq<T>)
    requires j <= |s|
    ensures Concat(s) == Concat(s[..j]) + rest
  {
    var n := |s| - 1;
    if j == |s| {
      rest := [];
      assert s[..j] == s;
    } else {
      var r := ConcatPrefix(s[..n], j);
      assert s[..n][..j] == s[..j];
      rest := r + s[n];
    }
  }

  /** Before item j of a segment its bits come next. */
  lemma ItemAhead<T>(p: Plan<T>, src: seq<int>, g: nat, j: nat)
    requires GoodPlan(p, src) && g < |p.codes| && j < |p.bits[g]|
    ensures Remaining(p, g, j) == p.bits[g][j] + Remaining(p, g, j + 1)
  {
    hide SegmentsOf, ByteBits, ScanAt;
    var s := p.bits[g];
    var rest := ConcatPrefix(s, j + 1);
    assert s[..j + 1][..j] == s[..j];
    var n: nat :| n < 8 && ByteBits(p.codes[g]) == Concat(s) + Fill(1, n);
    Regroup(Concat(s[..j]), s[j], rest, Fill(1, n));
  }

  lemma Regroup(a: seq<int>, b: seq<int>, c: seq<int>, d: seq<int>)
    ensures var all := a + b + c + d; all[|a|..] == b + all[|a + b|..]
  {
  }

  /** After a segment's last item only padding is left. */
  lemma OnlyPadding<T>(p: Plan<T>, src: seq<int>, g: nat)
    requires GoodPlan(p, src) && g < |p.codes|
    ensures |Remaining(p, g, |p.bits[g]|)| < 8 && Remaining(p, g, 0) == ByteBits(p.codes[g])
  {
    hide SegmentsOf, ByteBits, ScanAt;
    assert p.bits[g][..|p.bits[g]|] == p.bits[g];
  }

  /** Item n is item j of segment g, and item n + 1 is the next of the same segment unless a
      restart is due. */
  lemma Here<T>(p: Plan<T>, src: seq<int>, n: nat, g: nat, j: nat)
    requires GoodPlan(p, src) && n < |p.xs|
    requires var s := SplitBy(p.xs[..n], p.interval);
      if p.interval == 0 || s.togo > 0 then g == |s.groups| && j == |s.cur| else g == |s.groups| + 1 && j == 0
    ensures g < |p.codes| && j < |p.bits[g]|
    ensures g < |SegmentsOf(p.xs, p.interval)| && j < |SegmentsOf(p.xs, p.interval)[g]|
    ensures SegmentsOf(p.xs, p.interval)[g][j] == p.xs[n]
    ensures var s, q := SplitBy(p.xs[..n], p.interval), SplitBy(p.xs[..n + 1], p.interval);
      && |q.groups| == g && |q.cur| == j + 1
      && (p.interval > 0 ==> q.togo == if s.togo > 0 then s.togo - 1 else p.interval - 1)
  {
    hide ScanAt, Padded;
    SplitPrefix(p.xs, p.interval, n);
    assert p.xs[..n + 1][..n] == p.xs[..n];
  }

  lemma AtSegmentEnd<T>(p: Plan<T>, src: seq<int>, n: nat, g: nat)
    requires GoodPlan(p, src) && n < |p.xs| && p.interval > 0
    requires var s := SplitBy(p.xs[..n], p.interval); s.togo == 0 && g == |s.groups|
    ensures g + 1 < |p.codes| && |SplitBy(p.xs[..n], p.interval).cur| == |p.bits[g]|
    ensures IsBytes(p.codes[g + 1])
    ensures var e := EndOf(p.start, p.codes, g);
      && e + 1 <= |src| && src[e] == RST0 + g % 8
      && InSource(src, e + 1, p.codes[g + 1], 0, EndOf(p.start, p.codes, g + 1))
  {
    hide Padded, InSource, EndOf, StartOf, SplitBy;
    SplitPrefix(p.xs, p.interval, n);
    assert SegmentAt(src, p.start, p.codes, g) && SegmentAt(src, p.start, p.codes, g + 1);
    EndInside(src, StartOf(p.start, p.codes, g), p.codes[g], 0, EndOf(p.start, p.codes, g));
  }

  lemma EndInside(src: seq<int>, pos: nat, code: seq<int>, m: nat, end: nat)
    requires InSource(src, pos, code, m, end)
    ensures end < |src|
  {
  }

  /** The bit reader of a scan with its restart counter. */
  class ScanReader<T> {
    const reader: Reader
    const restart_interval: nat
    var restarts_to_go: int
    ghost const plan: Plan<T>
    /** The current segment. */
    ghost var g: nat

    ghost predicate Setup() {
      restart_interval == plan.interval && GoodPlan(plan, reader.src)
    }

    /** Before item j of the current segment; at its end the padding may have been discarded. */
    ghost predicate Inside(j: nat)
      reads `g, reader
    {
      && g < |plan.codes| == |plan.bits| && j <= |plan.bits[g]| && Live(reader)
      && reader.code == plan.codes[g] && reader.end == EndOf(plan.start, plan.codes, g)
      && reader.discarded == 0 && reader.next_restart_num == g % 8
      && (reader.Ahead() == Remaining(plan, g, j) || (j == |plan.bits[g]| && reader.Ahead() == []))
    }

    /** The item's place in the current segment. */
    ghost function Place(n: nat): nat
      requires n <= |plan.xs|
      reads `g
    {
      var s := SplitBy(plan.xs[..n], restart_interval);
      if g == |s.groups| then |s.cur| else 0
    }

    /** Before item n of the scan; a restart that is due may have been taken already. */
    ghost predicate AtItem(n: nat)
      requires n <= |plan.xs|
      reads `g, `restarts_to_go, reader
    {
      var s := SplitBy(plan.xs[..n], restart_interval);
      && Inside(Place(n))
      && if g == |s.groups| then restart_interval > 0 ==> restarts_to_go == s.togo
         else g == |s.groups| + 1 && restart_interval > 0 && s.togo == 0 && restarts_to_go == restart_interval
    }

    constructor (source: Reader, interval: nat, ghost what: Plan<T>)
      requires interval == what.interval && GoodPlan(what, source.src) && |what.codes| > 0
      requires Live(source) && source.discarded == source.next_restart_num == 0
      requires source.code == what.codes[0] && source.end == EndOf(what.start, what.codes, 0)
      requires source.Ahead() == ByteBits(what.codes[0])
      ensures Setup() && AtItem(0) && g == 0 && Place(0) == 0 && reader == source && plan == what
      ensures restart_interval == interval
    {
      hide ScanAt, Padded, EndOf, Remaining, Live, Reader.Ahead, ByteBits;
      reader, restart_interval, restarts_to_go, plan, g := source, interval, interval, what, 0;
      new;
      OnlyPadding(plan, reader.src, 0);
      assert plan.xs[..0] == [];
      assert SplitBy(plan.xs[..0], interval) == Split([], [], interval);
    }

    lemma AtStart(n: nat)
      requires n <= |plan.xs| && Inside(0) && g == |SplitBy(plan.xs[..n], restart_interval).groups| + 1
      requires restart_interval > 0 && SplitBy(plan.xs[..n], restart_interval).togo == 0
      requires restarts_to_go == restart_interval
      ensures AtItem(n) && Place(n) == 0
    {
      hide Inside;
    }

    lemma AtEnd(n: nat)
      requires n <= |plan.xs| && g == |SplitBy(plan.xs[..n], restart_interval).groups| && Inside(Place(n))
      requires restart_interval > 0 ==> restarts_to_go == SplitBy(plan.xs[..n], restart_interval).togo
      ensures AtItem(n)
    {
      hide Inside;
    }

    /** process_restart, but for the decoder's own predictions. */
    method ProcessRestart(ghost n: nat) returns (ok: bool)
      requires Setup() && n < |plan.xs| && AtItem(n) && restart_interval > 0 && restarts_to_go == 0
      modifies `restarts_to_go, `g
      modifies reader`pos, reader`marker, reader`get_buffer, reader`bits_left, reader`insufficient,
               reader`m, reader`held, reader`discarded, reader`next_restart_num, reader`code, reader`end
      ensures AtItem(n)
      ensures if ok then restarts_to_go == restart_interval && Place(n) == 0
              else reader.avail < |reader.src| && g == old(g) && restarts_to_go == 0
    {
      hide GoodPlan, Remaining, Reader.Ahead, Live, SplitBy, InSource, EndOf, IsBytes, ByteBits, SegmentsOf;
      AtSegmentEnd(plan, reader.src, n, g);
      OnlyPadding(plan, reader.src, g);
      OnlyPadding(plan, reader.src, g + 1);
      ok := Resync(reader, plan.codes[g + 1], EndOf(plan.start, plan.codes, g + 1));
      if ok {
        g := g + 1;
        restarts_to_go := restart_interval;
        AtStart(n);
      } else {
        AtEnd(n);
      }
    }

    lemma Counting(n: nat)
      requires n <= |plan.xs| && AtItem(n) && restart_interval > 0
      ensures restarts_to_go >= 0
    {
      hide Inside, SplitBy;
    }

    /** The restart part of the MCU routines; the predictions are reset by the caller. */
    method RestartIfDue(ghost n: nat) returns (ok: bool, restarted: bool)
      requires Setup() && n < |plan.xs| && AtItem(n)
      modifies `restarts_to_go, `g
      modifies reader`pos, reader`marker, reader`get_buffer, reader`bits_left, reader`insufficient,
               reader`m, reader`held, reader`discarded, reader`next_restart_num, reader`code, reader`end
      ensures AtItem(n) && (if restarted then ok && Place(n) == 0 else g == old(g))
      ensures if ok then restart_interval == 0 || restarts_to_go > 0 else reader.avail < |reader.src|
    {
      hide AtItem, Place, Setup;
      ok, restarted := true, false;
      if restart_interval > 0 {
        Counting(n);
        if restarts_to_go == 0 {
          ok := ProcessRestart(n);
          restarted := ok;
        }
      }
    }

    /** More input arrives. */
    method Deliver(more: nat, ghost n: nat)
      requires n <= |plan.xs| && AtItem(n) && more <= |reader.src|
      modifies reader`avail
      ensures AtItem(n) && reader.avail == more
    {
      hide AtInput, Holding, ByteBits, Remaining, SplitBy, EndOf;
      reader.avail := more;
    }

    /** Where item n lies, and that its bits come next. */
    lemma Next(n: nat)
      requires Setup() && n < |plan.xs| && AtItem(n) && (restart_interval == 0 || restarts_to_go > 0)
      ensures g < |plan.bits| && Place(n) < |plan.bits[g]|
      ensures reader.Ahead() == plan.bits[g][Place(n)] + Remaining(plan, g, Place(n) + 1)
      ensures g < |SegmentsOf(plan.xs, plan.interval)| && Place(n) < |SegmentsOf(plan.xs, plan.interval)[g]|
      ensures SegmentsOf(plan.xs, plan.interval)[g][Place(n)] == plan.xs[n]
    {
      hide GoodPlan, Remaining, Reader.Ahead, Live, SplitBy, EndOf;
      Here(plan, reader.src, n, g, Place(n));
      ItemAhead(plan, reader.src, g, Place(n));
    }

    /** Item n has been decoded. */
    method Advance(ghost n: nat)
      requires Setup() && n < |plan.xs| && Live(reader) && g < |plan.codes| == |plan.bits|
      requires reader.code == plan.codes[g] && reader.end == EndOf(plan.start, plan.codes, g)
      requires reader.discarded == 0 && reader.next_restart_num == g % 8
      requires reader.Ahead() == Remaining(plan, g, Place(n) + 1)
      requires var s := SplitBy(plan.xs[..n], restart_interval);
        if g == |s.groups| then restart_interval > 0 ==> restarts_to_go == s.togo > 0
        else g == |s.groups| + 1 && restart_interval > 0 && s.togo == 0 && restarts_to_go == restart_interval
      modifies `restarts_to_go
      ensures AtItem(n + 1) && Place(n + 1) == old(Place(n)) + 1
    {
      hide GoodPlan, Remaining, Reader.Ahead, Live, SplitBy, EndOf;
      Here(plan, reader.src, n, g, Place(n));
      restarts_to_go := restarts_to_go - 1;
    }
  }
}
