/** Reading bits: a 32-bit buffer filled ahead from a byte source that may run dry at any
    point, with stuffing removed and zeros supplied once a marker has been reached. */
module BitReader {
  import opened Numbers
  import opened Bits
  import opened ByteStuffing
  import opened HuffmanDecoding
  import HuffmanCodes

  const MIN_GET_BITS := 25

  /** The low |held| bits of the buffer are the held bits; what lies above is stale. */
  ghost predicate Holding(buffer: int, held: seq<int>) {
    |held| <= 32 && IsBits(held) && buffer % Pow2(|held|) == BitVal(held)
  }

  lemma DropMultiple(x: int, k: int, u: int, d: int)
    requires u > 0 && d > 0
    ensures (x % (d * u)) % u == x % u && (x + k * u) % u == x % u
  {
    var q := x / (d * u);
    assert x == q * (d * u) + x % (d * u);
    MulAssoc(q, d, u);
    var y := x % (d * u);
    var r := y / u;
    assert y == r * u + y % u;
    assert x == (q * d + r) * u + y % u;
    ModUnique(x, u, q * d + r, y % u);
    assert x + k * u == (q * d + r + k) * u + y % u;
    ModUnique(x + k * u, u, q * d + r + k, y % u);
  }

  /** Shifting in n more bits, in a 32-bit register. */
  lemma HoldMore(buffer: int, held: seq<int>, v: int, n: nat)
    requires Holding(buffer, held) && |held| + n <= 32
    ensures Holding((buffer * Pow2(n) + v % Pow2(n)) % Pow2(32), held + BitsOf(v, n))
  {
    hide Pow2, BitVal, BitsOf;
    var l, t := |held|, BitsOf(v, n);
    ValBitsOf(v, n);
    BitValConcat(held, t);
    BitValBounds(held + t);
    Pow2Add(l, n);
    Pow2Add(32 - l - n, l + n);
    var q := buffer / Pow2(l);
    ShiftIn(buffer, q, Pow2(l), BitVal(held), Pow2(n), BitVal(t));
    ModUnique(buffer * Pow2(n) + BitVal(t), Pow2(l + n), q, BitVal(held + t));
    DropMultiple(buffer * Pow2(n) + BitVal(t), 0, Pow2(l + n), Pow2(32 - l - n));
  }

  lemma ShiftIn(buffer: int, q: int, u: int, h: int, p: int, t: int)
    requires buffer == q * u + h
    ensures buffer * p + t == q * (u * p) + (h * p + t)
  {
    MulAssoc(q, u, p);
  }

  /** Peeking at n bits, and dropping them. */
  lemma TakeBits(buffer: int, held: seq<int>, n: nat)
    requires Holding(buffer, held) && n <= |held|
    ensures buffer / Pow2(|held| - n) % Pow2(n) == BitVal(held[..n])
    ensures Holding(buffer, held[n..])
  {
    hide Pow2, BitVal;
    var top, low := held[..n], held[n..];
    assert held == top + low;
    BitValConcat(top, low);
    BitValBounds(top);
    BitValBounds(low);
    var u, p := Pow2(|low|), Pow2(n);
    Pow2Add(n, |low|);
    var q := buffer / Pow2(|held|);
    assert buffer == q * (p * u) + (BitVal(top) * u + BitVal(low));
    MulAssoc(q, p, u);
    assert buffer == (q * p + BitVal(top)) * u + BitVal(low);
    ModUnique(buffer, u, q * p + BitVal(top), BitVal(low));
    ModUnique(q * p + BitVal(top), p, q, BitVal(top));
  }

  datatype Fetch = Dry | Data(c: int) | Marker(code: int)

  /** The code's bytes from m on are still in the source, followed by padding and a marker whose
      code is at `end`. */
  ghost predicate InSource(src: seq<int>, pos: nat, code: seq<int>, m: nat, end: nat) {
    && m <= |code| && pos + |Stuff(code[m..])| < end < |src|
    && Holds(src, pos, code[m..], end - pos - |Stuff(code[m..])|)
  }

  /** The input position: before the marker, or right after it with its code noted. */
  ghost predicate AtInput(src: seq<int>, pos: nat, marker: int, code: seq<int>, m: nat, end: nat) {
    if marker != 0 then m == |code| && pos == end + 1 && end < |src| && marker == src[end]
    else InSource(src, pos, code, m, end)
  }

  /** What the source holds next. */
  lemma SourceHead(src: seq<int>, pos: nat, code: seq<int>, m: nat, end: nat)
    requires InSource(src, pos, code, m, end)
    ensures pos < end < |src| && 0 < src[end] < 0xFF && m <= |code|
    ensures if m == |code| then |Stuff(code[m..])| == 0 && forall i :: pos <= i < end ==> src[i] == 0xFF
            else && src[pos] == code[m] && (code[m] == 0xFF ==> src[pos + 1] == 0)
                 && InSource(src, pos + |Stuffed(code[m])|, code, m + 1, end)
                 && |Stuff(code[m..])| == |Stuffed(code[m])| + |Stuff(code[m + 1..])|
  {
    var rest := code[m..];
    var fill: nat := end - pos - |Stuff(rest)|;
    assert SourceByte(src, pos + |Stuff(rest)| + fill) == src[end];
    if m < |code| {
      HoldsHead(src, pos, rest, fill);
      StuffHead(rest);
      assert rest[1..] == code[m + 1..];
    } else {
      assert forall i :: pos <= i < end ==> src[i] == SourceByte(src, i) == 0xFF;
    }
  }

  /** What jpeg_fill_bit_buffer takes from any source: a byte; or, after a 0xFF and any padding 0xFFs, a
      stuffed 0xFF or a marker; or nothing when the delivered input ends first. */
  ghost predicate Fetched(src: seq<int>, avail: nat, pos: nat, f: Fetch, next: nat)
    requires avail <= |src|
  {
    if f.Dry? then next == pos && forall i :: pos <= i < avail ==> src[i] == 0xFF
    else
      && pos < next <= avail
      && if src[pos] != 0xFF then f == Data(src[pos]) && next == pos + 1
         else && pos + 2 <= next && (forall i :: pos <= i < next - 1 ==> src[i] == 0xFF) && src[next - 1] != 0xFF
              && f == if src[next - 1] == 0 then Data(0xFF) else Marker(src[next - 1])
  }

  /** One data byte or a marker, unless the delivered input ends first. */
  method NextByte(src: seq<int>, avail: nat, pos: nat) returns (f: Fetch, next: nat)
    requires avail <= |src|
    ensures Fetched(src, avail, pos, f, next)
  {
    next := pos;
    if next >= avail {
      return Dry, pos;
    }
    var c := src[next];
    next := next + 1;
    if c == 0xFF {
      if next >= avail {
        return Dry, pos;
      }
      c := src[next];
      next := next + 1;
      while c == 0xFF
        invariant pos + 2 <= next <= avail && c == src[next - 1] && forall i :: pos <= i < next - 1 ==> src[i] == 0xFF
        decreases avail - next
      {
        if next >= avail {
          return Dry, pos;
        }
        c := src[next];
        next := next + 1;
      }
      if c == 0 {
        f := Data(0xFF);
      } else {
        f := Marker(c);
      }
    } else {
      f := Data(c);
    }
  }

  /** In a segment that is the next data byte, or the marker that ends it. */
  lemma FetchedNext(src: seq<int>, avail: nat, pos: nat, f: Fetch, next: nat, code: seq<int>, m: nat, end: nat)
    requires avail <= |src| && InSource(src, pos, code, m, end) && Fetched(src, avail, pos, f, next)
    ensures f.Data? ==> m < |code| && f.c == code[m] && InSource(src, next, code, m + 1, end)
    ensures f.Marker? ==> m == |code| && next == end + 1 && end < |src| && f.code == src[end] != 0
    ensures f.Dry? ==> avail < |src|
  {
    hide InSource, Stuff;
    SourceHead(src, pos, code, m, end);
    if m < |code| {
      assert code[m] == 0xFF ==> src[pos + 1] == 0;
      assert !f.Dry? && code[m] == 0xFF ==> next == pos + 2;
    } else if !f.Dry? {
      assert next - 1 >= end;
      assert next - 1 <= end;
    }
  }

  lemma AllTaken(src: seq<int>, pos: nat, marker: int, code: seq<int>, m: nat, end: nat)
    requires AtInput(src, pos, marker, code, m, end)
    ensures m <= |code| && (marker != 0 ==> m == |code|)
  {
  }

  /** Takes whole bytes while there is room for them, up to the marker. */
  method LoadBytes(src: seq<int>, avail: nat, pos: nat, marker: int, get_buffer: int, bits_left: int,
                   ghost code: seq<int>, ghost m: nat, ghost end: nat, ghost held: seq<int>)
    returns (ok: bool, p: nat, buffer: int, left: nat, found: int, ghost mm: nat, ghost hh: seq<int>)
    requires avail <= |src| && IsBytes(code) && AtInput(src, pos, marker, code, m, end)
    requires bits_left == |held| <= 32 && Holding(get_buffer, held)
    ensures !ok ==> avail < |src| && marker == 0
    ensures AtInput(src, p, found, code, mm, end) && left == |hh| <= 32 && Holding(buffer, hh)
    ensures m <= |code| && mm <= |code| && hh + ByteBits(code[mm..]) == held + ByteBits(code[m..])
    ensures marker != 0 ==> found != 0
    ensures ok ==> left >= MIN_GET_BITS || found != 0
  {
    hide Pow2, BitVal, BitsOf, ByteBits, InSource, Holding;
    p, buffer, left, found, mm, hh, ok := pos, get_buffer, bits_left, marker, m, held, true;
    AllTaken(src, p, found, code, mm, end);
    while left < MIN_GET_BITS && found == 0
      invariant left == |hh| <= 32 && Holding(buffer, hh) && (marker != 0 ==> found != 0)
      invariant mm <= |code| && AtInput(src, p, found, code, mm, end)
      invariant hh + ByteBits(code[mm..]) == held + ByteBits(code[m..])
      decreases |code| - mm, found == 0
    {
      var f, next := NextByte(src, avail, p);
      FetchedNext(src, avail, p, f, next, code, mm, end);
      match f {
        case Dry =>
          ok := false;
          return;
        case Data(c) =>
          HoldByte(buffer, hh, c);
          TailBits(code, mm);
          buffer := (buffer * 0x100 + c) % 0x1_0000_0000;
          left := left + 8;
          hh := hh + BitsOf(c, 8);
          mm := mm + 1;
        case Marker(mk) =>
          found := mk;
      }
      p := next;
    }
  }

  /** The 0xFF has been read: swallows any further ones and returns the byte after. */
  method SkipPadding(src: seq<int>, avail: nat, at: nat) returns (ok: bool, p: nat, c: int)
    requires avail <= |src|
    ensures !ok ==> avail < |src| || forall i :: at <= i < |src| ==> src[i] == 0xFF
    ensures ok ==> at < p <= |src| && c == src[p - 1] != 0xFF && forall i :: at <= i < p - 1 ==> src[i] == 0xFF
  {
    p, c := at, 0xFF;
    while c == 0xFF
      invariant at <= p <= |src| || p == at
      invariant c != 0xFF ==> at < p <= |src| && c == src[p - 1]
      invariant forall i :: at <= i < p && (c != 0xFF ==> i < p - 1) ==> i < |src| && src[i] == 0xFF
      decreases avail - p, c == 0xFF
    {
      if p >= avail {
        return false, p, 0;
      }
      c := src[p];
      p := p + 1;
    }
    ok := true;
  }

  lemma BeforeMarker(src: seq<int>, pos: nat, code: seq<int>, m: nat, end: nat)
    ensures AtInput(src, pos, 0, code, m, end) <==> InSource(src, pos, code, m, end)
  {
  }

  /** The loop of next_marker. The position is advanced past every skipped byte at once, so
      that a suspended call does not see it again. */
  method ScanToMarker(src: seq<int>, avail: nat, start: nat, count: nat, ghost code: seq<int>, ghost from: nat,
                      ghost end: nat)
    returns (ok: bool, pos: nat, discarded: nat, c: int, ghost m: nat)
    requires avail <= |src| && InSource(src, start, code, from, end)
    ensures from <= m <= |code| && AtInput(src, pos, c, code, m, end)
    ensures discarded + |Stuff(code[m..])| == count + |Stuff(code[from..])|
    ensures if ok then c == src[end] != 0 && m == |code| else avail < |src| && c == 0
  {
    hide InSource, Stuff, AtInput;
    pos, discarded, c, m := start, count, 0, from;
    SourceHead(src, pos, code, m, end);
    BeforeMarker(src, pos, code, m, end);
    while c == 0
      invariant from <= m <= |code| && AtInput(src, pos, c, code, m, end)
      invariant discarded + |Stuff(code[m..])| == count + |Stuff(code[from..])|
      invariant c != 0 ==> c == src[end] && m == |code|
      decreases |code| - m, c == 0
    {
      BeforeMarker(src, pos, code, m, end);
      SourceHead(src, pos, code, m, end);
      if pos >= avail {
        return false, pos, discarded, 0, m;
      }
      c := src[pos];
      while c != 0xFF
        invariant from <= m <= |code| && InSource(src, pos, code, m, end)
        invariant pos < avail && c == src[pos]
        invariant discarded + |Stuff(code[m..])| == count + |Stuff(code[from..])|
        decreases |code| - m
      {
        SourceHead(src, pos, code, m, end);
        discarded := discarded + 1;
        m := m + 1;
        pos := pos + 1;
        BeforeMarker(src, pos, code, m, end);
        SourceHead(src, pos, code, m, end);
        if pos >= avail {
          return false, pos, discarded, 0, m;
        }
        c := src[pos];
      }
      SourceHead(src, pos, code, m, end);
      BeforeMarker(src, pos, code, m, end);
      var p: nat;
      ok, p, c := SkipPadding(src, avail, pos + 1);
      if !ok {
        return false, pos, discarded, 0, m;
      }
      MarkerOrData(src, pos, code, m, end, p, c);
      if c == 0 {
        discarded := discarded + 2;
        m := m + 1;
      }
      pos := p;
      BeforeMarker(src, pos, code, m, end);
    }
    ok := true;
  }

  /** After a 0xFF: a stuffed zero, or the padding and the marker. */
  lemma MarkerOrData(src: seq<int>, pos: nat, code: seq<int>, m: nat, end: nat, p: nat, c: int)
    requires InSource(src, pos, code, m, end) && src[pos] == 0xFF
    requires pos + 1 < p <= |src| && c == src[p - 1] != 0xFF && forall i :: pos + 1 <= i < p - 1 ==> src[i] == 0xFF
    ensures if c == 0 then m < |code| && InSource(src, p, code, m + 1, end) &&
                           |Stuff(code[m..])| == 2 + |Stuff(code[m + 1..])|
            else m == |code| && p == end + 1 && c == src[end] && AtInput(src, p, c, code, m, end)
  {
    hide InSource, Stuff;
    SourceHead(src, pos, code, m, end);
    if m < |code| {
      assert p == pos + 2;
    } else {
      assert src[p - 1] != 0xFF && src[end] != 0xFF;
    }
  }

  lemma NothingLeft(code: seq<int>, m: nat)
    requires m <= |code|
    ensures m == |code| ==> |Stuff(code[m..])| == 0
    ensures 8 * |code[m..]| < 8 ==> m == |code|
  {
  }

  /** Once the expected restart marker is swallowed, the next segment lies ahead. */
  lemma AtNext(src: seq<int>, pos: nat, marker: int, code: seq<int>, m: nat, end: nat, next: seq<int>, last: nat)
    requires AtInput(src, pos, marker, code, m, end) && marker != 0 && InSource(src, end + 1, next, 0, last)
    ensures marker == src[end] && AtInput(src, pos, 0, next, 0, last)
  {
  }

  lemma Marked(src: seq<int>, pos: nat, marker: int, code: seq<int>, m: nat, end: nat)
    requires AtInput(src, pos, marker, code, m, end) && marker != 0
    ensures marker == src[end] && m == |code|
  {
  }

  class Reader {
    const src: seq<int>
    /** How much of the source has been delivered. */
    var avail: nat
    var pos: nat
    var marker: int
    var get_buffer: int
    var bits_left: int
    var insufficient: bool
    var discarded: nat
    var next_restart_num: nat

    /** The segment's data bytes, how many have been taken, and the bits held. */
    ghost var code: seq<int>
    ghost var end: nat
    ghost var m: nat
    ghost var held: seq<int>

    ghost predicate Valid()
      reads this
    {
      && IsBytes(code) && m <= |code| && avail <= |src|
      && AtInput(src, pos, marker, code, m, end)
      && bits_left == |held| && Holding(get_buffer, held)
    }

    /** The bits of the segment still to come. */
    ghost function Ahead(): (r: seq<int>)
      reads this
      ensures Valid() ==> IsBits(r)
    {
      held + if m <= |code| then ByteBits(code[m..]) else []
    }

    constructor (source: seq<int>, at: nat, delivered: nat, ghost segment: seq<int>, ghost last: nat)
      requires IsBytes(segment) && delivered <= |source| && InSource(source, at, segment, 0, last)
      ensures Valid() && Ahead() == ByteBits(segment) && src == source && avail == delivered
      ensures !insufficient && discarded == next_restart_num == 0 && code == segment && end == last && bits_left == 0
      ensures pos == at && marker == 0
    {
      src, avail, pos, marker := source, delivered, at, 0;
      get_buffer, bits_left, insufficient := 0, 0, false;
      discarded, next_restart_num := 0, 0;
      code, end, m, held := segment, last, 0, [];
      new;
      assert code[0..] == code;
      NothingHeld(0);
    }

    /** jpeg_fill_bit_buffer: afterwards at least nbits are held. Only if the segment has
        fewer bits left are zeros made up, and that is recorded. */
    method Fill(nbits: nat) returns (ok: bool)
      requires Valid() && nbits <= MIN_GET_BITS && bits_left <= 31
      modifies `pos, `marker, `get_buffer, `bits_left, `insufficient, `m, `held
      ensures Valid()
      ensures !ok ==> avail < |src| && Ahead() == old(Ahead()) && unchanged(this) && marker == 0
      ensures old(marker) != 0 ==> marker != 0
      ensures marker == 0 ==> insufficient == old(insufficient)
      ensures ok ==> bits_left >= nbits && (bits_left >= MIN_GET_BITS || marker != 0) && bits_left <= 32
      ensures ok && |old(Ahead())| >= nbits ==> Ahead() == old(Ahead()) && insufficient == old(insufficient)
      ensures ok && marker != 0 && |old(Ahead())| >= nbits ==> held == Ahead()
    {
      hide Pow2, BitVal, BitsOf, ByteBits, AtInput;
      var p, buffer, left, found;
      ghost var mm, hh;
      ok, p, buffer, left, found, mm, hh := LoadBytes(src, avail, pos, marker, get_buffer, bits_left, code, m, end,
                                                      held);
      if !ok {
        return;
      }
      ghost var before := Ahead();
      pos, marker, m := p, found, mm;
      if found != 0 && nbits > left {
        insufficient := true;
        HoldMore(buffer, hh, 0, MIN_GET_BITS - left);
        ZeroMod(MIN_GET_BITS - left);
        buffer := buffer * Pow2(MIN_GET_BITS - left) % Pow2(32);
        hh := hh + BitsOf(0, MIN_GET_BITS - left);
        left := MIN_GET_BITS;
      }
      if found != 0 {
        AllTaken(src, p, found, code, mm, end);
        NoMoreBits(code[mm..]);
      }
      get_buffer, bits_left, held := buffer, left, hh;
      ok := true;
    }

    /** next_marker: skips whatever data is left, and reports how many bytes it skipped. */
    method NextMarker() returns (ok: bool, skipped: nat)
      requires Valid() && marker == 0
      modifies `pos, `marker, `discarded, `m
      ensures Valid() && old(m) <= m <= |code| && old(m) <= |code|
      ensures ok ==> marker == src[end] != 0 && discarded == 0 && skipped == old(discarded) + |Stuff(code[old(m)..])|
      ensures !ok ==>
          avail < |src| && marker == 0 && discarded + |Stuff(code[m..])| == old(discarded) + |Stuff(code[old(m)..])|
    {
      hide InSource, Holding, Stuff, AtInput;
      AllTaken(src, pos, marker, code, m, end);
      BeforeMarker(src, pos, code, m, end);
      var c;
      ok, pos, discarded, c, m := ScanToMarker(src, avail, pos, discarded, code, m, end);
      AllTaken(src, pos, c, code, m, end);
      NothingLeft(code, m);
      skipped := 0;
      if ok {
        skipped := discarded;
        discarded := 0;
        marker := c;
      }
    }

    /** read_restart_marker, within process_restart: whatever bits and bytes of the segment are left are
        thrown away and counted. If the expected marker comes next it is swallowed, and the next segment
        begins; otherwise the marker stays unread, and the source manager would have to resynchronize. */
    method Restart(ghost next: seq<int>, ghost last: nat) returns (ok: bool, expected: bool, skipped: nat)
      requires Valid() && next_restart_num < 8
      requires src[end] == 0xD0 + next_restart_num ==> IsBytes(next) && InSource(src, end + 1, next, 0, last)
      modifies this`pos, `marker, `get_buffer, `bits_left, `insufficient, `m, `held, `discarded, `next_restart_num,
               `code, `end
      ensures Valid() && bits_left == 0
      ensures old(m) <= |old(code)| && if ok then skipped == (if old(marker) == 0 then old(Unused()) else 0) &&
                                                  discarded == (if old(marker) == 0 then 0 else old(Unused()))
              else avail < |src| && marker == 0 && held == [] && old(m) <= m && Unused() == old(Unused())
      ensures ok ==> (expected <==> src[old(end)] == 0xD0 + old(next_restart_num))
      ensures ok && expected ==>
          Ahead() == ByteBits(next) && code == next && end == last && marker == 0 && !insufficient
      ensures next_restart_num == if ok && expected then (old(next_restart_num) + 1) % 8 else old(next_restart_num)
      ensures !(ok && expected) ==> code == old(code) && end == old(end) && insufficient == old(insufficient)
      ensures ok && !expected ==> marker == src[end] != 0 && Ahead() == []
    {
      hide InSource, Stuff, AtInput, ByteBits, Holding;
      AllTaken(src, pos, marker, code, m, end);
      NothingLeft(code, m);
      discarded := discarded + bits_left / 8;
      bits_left := 0;
      held := [];
      NothingHeld(get_buffer);
      skipped, expected := 0, false;
      if marker == 0 {
        ok, skipped := NextMarker();
        if !ok {
          return false, false, 0;
        }
      }
      AllTaken(src, pos, marker, code, m, end);
      NoMoreBits(code[m..]);
      expected := marker == 0xD0 + next_restart_num;
      Marked(src, pos, marker, code, m, end);
      if expected {
        AtNext(src, pos, marker, code, m, end, next, last);
        marker := 0;
        code, end, m := next, last, 0;
        assert next[0..] == next;
        next_restart_num := (next_restart_num + 1) % 8;
        insufficient := false;
      }
      ok := true;
    }

    /** Bytes of the segment that no MCU has used, and bytes skipped earlier. */
    ghost function Unused(): nat
      requires Valid()
      reads this
    {
      discarded + bits_left / 8 + |Stuff(code[m..])|
    }

    /** CHECK_BIT_BUFFER and GET_BITS. */
    method Receive(n: nat) returns (ok: bool, v: int)
      requires Valid() && n <= 16 && bits_left <= 32
      modifies `pos, `marker, `get_buffer, `bits_left, `insufficient, `m, `held
      ensures Valid() && 0 <= v < Pow2(n) && bits_left <= 32
      ensures !ok ==> avail < |src| && marker == 0
      ensures old(marker) != 0 ==> marker != 0
      ensures marker == 0 ==> insufficient == old(insufficient)
      ensures ok && |old(Ahead())| >= n ==>
                v == BitVal(old(Ahead())[..n]) && Ahead() == old(Ahead())[n..] && insufficient == old(insufficient)
    {
      hide Pow2, BitVal, BitsOf, ByteBits, AtInput;
      ghost var all := Ahead();
      v := 0;
      if bits_left < n {
        ok := Fill(n);
        if !ok {
          return;
        }
      }
      assert |all| >= n ==> held[..n] == all[..n];
      TakeBits(get_buffer, held, n);
      BitValBounds(held[..n]);
      v := get_buffer / Pow2(bits_left - n) % Pow2(n);
      assert held == held[..n] + held[n..];
      bits_left := bits_left - n;
      held := held[n..];
      ok := true;
    }

    /** The first l bits of the stream are in hand, as `code`, and the symbol has `used`. */
    ghost predicate Decoding(d: DTable, all: seq<int>, used: nat, l: nat, code: int)
      requires IsDTable(d) && 1 <= l <= 17
      reads this
    {
      var w := Window(all);
      && l <= used <= |all| && used == Serial(d.maxcode, w, l) && code == w / Pow2(17 - l) && Ahead() == all[l..]
    }

    /** The code is longer than l bits. */
    method OneMoreBit(d: DTable, l: nat, code: int, ghost all: seq<int>, ghost used: nat)
      returns (ok: bool, longer: int)
      requires Valid() && bits_left <= 32 && IsDTable(d) && 1 <= l <= 17 && d.maxcode[l] < code < Pow2(l) && 0 <= code
      requires IsBits(all)
      modifies `pos, `marker, `get_buffer, `bits_left, `insufficient, `m, `held
      ensures Valid() && bits_left <= 32 && l < 17
      ensures !ok ==> avail < |src| && marker == 0
      ensures old(marker) != 0 ==> marker != 0
      ensures marker == 0 ==> insufficient == old(insufficient)
      ensures ok ==> 0 <= longer < Pow2(l + 1)
      ensures ok && old(Decoding(d, all, used, l, code)) ==>
                Decoding(d, all, used, l + 1, longer) && insufficient == old(insufficient)
    {
      hide Pow2, BitVal, BitsOf, ByteBits, AtInput, Window, Holding, Serial, Ahead;
      WindowRange(all);
      SerialStep(d.maxcode, Window(all), l, code);
      ghost var going := Decoding(d, all, used, l, code);
      longer := code * 2;
      var bit: int;
      ok, bit := Receive(1);
      if !ok {
        return;
      }
      OneBit(code, bit, l);
      longer := longer + bit;
      if going {
        LongerThan(d.maxcode, Window(all), l);
        WindowPrefix(all, l);
        WindowPrefix(all, l + 1);
        PrefixGrows(all, l);
      }
    }

    /** jpeg_huff_decode: the code is known to have at least `start` bits. */
    method Slow(d: DTable, start: nat) returns (ok: bool, value: int)
      requires Valid() && bits_left <= 32 && IsDTable(d) && 1 <= start <= 9
      modifies `pos, `marker, `get_buffer, `bits_left, `insufficient, `m, `held
      ensures Valid() && bits_left <= 32
      ensures !ok ==> avail < |src| && marker == 0
      ensures old(marker) != 0 ==> marker != 0
      ensures marker == 0 ==> insufficient == old(insufficient)
      ensures var s := HuffDecode(d.maxcode, d.valoffset, d.huffval, Window(old(Ahead())), start);
        ok && |old(Ahead())| >= s.used ==>
          value == s.value && Ahead() == old(Ahead())[s.used..] && insufficient == old(insufficient)
    {
      hide Pow2, BitVal, BitsOf, ByteBits, AtInput, Window, Holding, Serial;
      ghost var all, w := Ahead(), Window(Ahead());
      WindowRange(all);
      ghost var used := Serial(d.maxcode, w, start);
      value := 0;
      var l := start;
      var code: int;
      ok, code := Receive(l);
      if !ok {
        return;
      }
      if |all| >= l {
        WindowPrefix(all, l);
      }
      while code > d.maxcode[l]
        invariant start <= l <= 17 && Valid() && bits_left <= 32 && 0 <= code < Pow2(l)
        invariant old(marker) != 0 ==> marker != 0
        invariant marker == 0 ==> insufficient == old(insufficient)
        invariant |all| >= used ==> Decoding(d, all, used, l, code) && insufficient == old(insufficient)
        decreases 17 - l
      {
        ok, code := OneMoreBit(d, l, code, all, used);
        if !ok {
          return;
        }
        l := l + 1;
      }
      SerialStops(d.maxcode, w, l, code);
      if l > 16 {
        return;
      }
      var i := code + d.valoffset[l];
      value := if 0 <= i < |d.huffval| then d.huffval[i] else 0;
    }

    /** With at least 8 bits held: the lookahead table, or the slow way from 9 bits. */
    method LookUp(d: DTable, ghost t: HuffmanCodes.Table) returns (ok: bool, value: int)
      requires Valid() && 8 <= bits_left <= 32 && DecodesTable(d, t)
      modifies `pos, `marker, `get_buffer, `bits_left, `insufficient, `m, `held
      ensures Valid() && bits_left <= 32
      ensures !ok ==> avail < |src| && marker == 0
      ensures old(marker) != 0 ==> marker != 0
      ensures marker == 0 ==> insufficient == old(insufficient)
      ensures var s := HuffDecode(d.maxcode, d.valoffset, d.huffval, Window(old(Ahead())), 1);
        ok && |old(Ahead())| >= s.used ==>
          value == s.value && Ahead() == old(Ahead())[s.used..] && insufficient == old(insufficient)
    {
      hide Pow2, BitVal, BitsOf, ByteBits, AtInput, Window, HuffDecode, LookTables, SerialTables;
      ghost var all := Ahead();
      WindowRange(all);
      LookaheadAgrees(t, d.maxcode, d.valoffset, d.nbits, d.sym, Window(all));
      assert all[..8] == held[..8];
      TakeBits(get_buffer, held, 8);
      WindowByte(all);
      BitValBounds(held[..8]);
      assert Pow2(8) == 256 by { Pow2Constants(); }
      var look := get_buffer / Pow2(bits_left - 8) % 256;
      if d.nbits[look] != 0 {
        LookSmall(t, d.nbits, d.sym, look);
        TakeBits(get_buffer, held, d.nbits[look]);
        assert held == held[..d.nbits[look]] + held[d.nbits[look]..];
        held := held[d.nbits[look]..];
        bits_left := bits_left - d.nbits[look];
        value := d.sym[look];
        ok := true;
      } else {
        ok, value := Slow(d, 9);
      }
    }

    /** The HUFF_DECODE macro. */
    method HuffSymbol(d: DTable, ghost t: HuffmanCodes.Table) returns (ok: bool, value: int)
      requires Valid() && bits_left <= 32 && DecodesTable(d, t)
      modifies `pos, `marker, `get_buffer, `bits_left, `insufficient, `m, `held
      ensures Valid() && bits_left <= 32
      ensures !ok ==> avail < |src| && marker == 0
      ensures old(marker) != 0 ==> marker != 0
      ensures marker == 0 ==> insufficient == old(insufficient)
      ensures var s := HuffDecode(d.maxcode, d.valoffset, d.huffval, Window(old(Ahead())), 1);
        ok && |old(Ahead())| >= s.used ==>
          value == s.value && Ahead() == old(Ahead())[s.used..] && insufficient == old(insufficient)
    {
      hide Window, HuffDecode, LookTables, SerialTables, Valid, Ahead;
      value := 0;
      if bits_left < 8 {
        ok := Fill(0);
        if !ok {
          return;
        }
        if bits_left < 8 {
          ok, value := Slow(d, 1);
          return;
        }
      }
      ok, value := LookUp(d, t);
    }
  }

  lemma NothingHeld(buffer: int)
    ensures Holding(buffer, [])
  {
  }

  lemma ZeroMod(n: nat)
    ensures 0 % Pow2(n) == 0
  {
    ModUnique(0, Pow2(n), 0, 0);
  }

  lemma HoldByte(buffer: int, held: seq<int>, c: int)
    requires Holding(buffer, held) && |held| <= 24 && 0 <= c <= 255
    ensures Holding((buffer * 0x100 + c) % 0x1_0000_0000, held + BitsOf(c, 8))
  {
    hide Pow2, BitVal, BitsOf;
    HoldMore(buffer, held, c, 8);
    Pow2Add(16, 16);
    Pow2Constants();
  }

  lemma TailBits(code: seq<int>, m: nat)
    requires m < |code|
    ensures ByteBits(code[m..]) == BitsOf(code[m], 8) + ByteBits(code[m + 1..])
  {
    hide BitsOf;
    assert code[m..] == [code[m]] + code[m + 1..];
    ByteBitsConcat([code[m]], code[m + 1..]);
    assert [] + [code[m]] == [code[m]];
    ByteBitsSnoc([], code[m]);
    assert ByteBits([]) == [];
  }

  lemma NoMoreBits(s: seq<int>)
    ensures |s| == 0 ==> ByteBits(s) == []
  {
  }

  // Symbols ----------------------------------------------------------------------------

  /** A derived decoding table. */
  datatype DTable = DTable(maxcode: seq<int>, valoffset: seq<int>, huffval: seq<nat>, nbits: seq<int>, sym: seq<int>)

  ghost predicate IsDTable(d: DTable) {
    && |d.maxcode| == 18 && |d.valoffset| == 17 && d.maxcode[17] == 0xFFFFF
    && |d.nbits| == |d.sym| == 256 && forall b :: 0 <= b < 256 ==> d.nbits[b] >= 0
  }

  ghost predicate DecodesTable(d: DTable, t: HuffmanCodes.Table) {
    && IsDTable(d) && HuffmanCodes.IsTable(t) && HuffmanCodes.Fits(HuffmanCodes.Lengths(t))
    && d.huffval == t.huffval && SerialTables(t.bits, d.maxcode, d.valoffset)
    && LookTables(HuffmanCodes.Lengths(t), t.huffval, d.nbits, d.sym)
  }

  /** The next 17 bits, with zeros after the end. */
  ghost function Window(bits: seq<int>): (w: nat)
  {
    var v := BitVal((bits + Fill(0, 17))[..17]);
    if 0 <= v < 0x20000 then v else 0
  }

  lemma WindowRange(bits: seq<int>)
    ensures 0 <= Window(bits) < 0x20000
  {
  }

  lemma WindowPrefix(bits: seq<int>, l: nat)
    requires IsBits(bits) && l <= 17 && l <= |bits|
    ensures Window(bits) / Pow2(17 - l) == BitVal(bits[..l])
  {
    hide Pow2;
    var s := (bits + Fill(0, 17))[..17];
    assert s == bits[..l] + s[l..];
    BitValBounds(s);
    assert Pow2(17) == 0x20000 by { Pow2Add(16, 1); Pow2Constants(); }
    BitValConcat(bits[..l], s[l..]);
    BitValBounds(s[l..]);
    ModUnique(Window(bits), Pow2(17 - l), BitVal(bits[..l]), BitVal(s[l..]));
  }

  lemma PrefixGrows(bits: seq<int>, l: nat)
    requires l < |bits|
    ensures BitVal(bits[..l + 1]) == 2 * BitVal(bits[..l]) + BitVal(bits[l..][..1])
  {
    assert bits[..l + 1][..l] == bits[..l];
    assert bits[l..][..1] == [bits[l]];
    assert [bits[l]][..0] == [];
  }

  lemma OneBit(code: int, bit: int, l: nat)
    requires 0 <= code < Pow2(l) && 0 <= bit < Pow2(1)
    ensures bit <= 1 && 0 <= 2 * code + bit < Pow2(l + 1)
  {
  }

  lemma WindowByte(bits: seq<int>)
    requires IsBits(bits) && |bits| >= 8
    ensures Window(bits) / 512 == BitVal(bits[..8])
  {
    WindowPrefix(bits, 8);
    assert Pow2(9) == 512 by { Pow2Constants(); }
  }

  lemma SerialStep(maxcode: seq<int>, w: nat, l: nat, code: int)
    requires |maxcode| == 18 && 1 <= l <= 17 && w < 0x20000 && maxcode[17] == 0xFFFFF
    requires maxcode[l] < code < Pow2(l)
    ensures l < 17
    ensures code == w / Pow2(17 - l) ==> Serial(maxcode, w, l) == Serial(maxcode, w, l + 1)
  {
    if l == 17 {
      Pow2Add(16, 1);
      Pow2Constants();
    }
  }

  lemma LongerThan(maxcode: seq<int>, w: nat, l: nat)
    requires |maxcode| == 18 && 1 <= l < 17 && w < 0x20000 && maxcode[17] == 0xFFFFF
    ensures Serial(maxcode, w, l) > l <==> w / Pow2(17 - l) > maxcode[l]
  {
  }

  lemma SerialStops(maxcode: seq<int>, w: nat, l: nat, code: int)
    requires |maxcode| == 18 && 1 <= l <= 17 && w < 0x20000 && maxcode[17] == 0xFFFFF && code <= maxcode[l]
    ensures code == w / Pow2(17 - l) ==> Serial(maxcode, w, l) == l
  {
  }

  lemma LookSmall(t: HuffmanCodes.Table, nbits: seq<int>, sym: seq<int>, b: nat)
    requires HuffmanCodes.IsTable(t) && LookTables(HuffmanCodes.Lengths(t), t.huffval, nbits, sym)
    requires b < 256 && nbits[b] != 0
    ensures nbits[b] <= 8
  {
    assert LookEntry(HuffmanCodes.Lengths(t), t.huffval, nbits, sym, b);
  }
}
