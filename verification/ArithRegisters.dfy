/** The register-level arithmetic encoder: the C register with its spacer bits, delayed
    carries through a buffered byte and a count of stacked 0xFF bytes, byte stuffing, and
    the removal of trailing zero bytes. */
module ArithRegisters {
  import opened Numbers
  import opened ArithTable
  import opened IntervalCoder

  /** C, A, stacked 0xFF count, pending zero count, shift counter, most recent byte
      that is not 0xFF (-1: none yet). */
  datatype Registers = Registers(c: int, a: int, sc: int, zc: int, ct: int, buffer: int)

  const RESET := Registers(0, 0x10000, 0, 0, 11, -1)

  function Buffered(buffer: int): seq<int> {
    if buffer >= 0 then [buffer] else []
  }

  /** All the data bytes produced so far: those emitted, the zeros held back, the
      buffered byte, and the stacked 0xFF bytes. */
  function Pending(r: Registers, data: seq<int>): seq<int>
    requires 0 <= r.sc && 0 <= r.zc
  {
    data + Fill(0, r.zc) + Buffered(r.buffer) + Fill(255, r.sc)
  }

  /** The bytes actually emitted never end in a zero that could still be discarded. */
  ghost predicate Trimmed(data: seq<int>) {
    IsBytes(data) && (|data| > 0 ==> data[|data| - 1] != 0)
  }

  /** ct is 0 only between the shift that completes a byte and its removal from C. */
  ghost predicate InRange(r: Registers) {
    0 <= r.ct <= 11 && 0 <= r.sc && 0 <= r.zc && -1 <= r.buffer <= 0xFE &&
    (r.buffer < 0 ==> r.zc == 0) && 0 <= r.c && 1 <= r.a <= 0x10000
  }

  /** The bound on c + a is what the three spacer bits buy. */
  ghost predicate Meaning(r: Registers, data: seq<int>, iv: Interval)
    requires InRange(r)
  {
    && Trimmed(data)
    && (r.buffer < 0 ==> data == [])
    && (r.ct > 8 ==> Pending(r, data) == [])
    && r.c + r.a <= 9 * Pow2(24 - r.ct)
    && iv.shifts == 8 * |Pending(r, data)| + 11 - r.ct
    && iv.low == Val(Pending(r, data)) * Pow2(27 - r.ct) + r.c
    && iv.low + iv.size <= Pow2(16 + iv.shifts)
  }

  /** The registers and emitted data denote exactly the interval `iv`. */
  ghost predicate Denote(r: Registers, data: seq<int>, iv: Interval) {
    InRange(r) && r.a == iv.size && Meaning(r, data, iv)
  }

  lemma ResetDenotesWhole()
    ensures Denote(RESET, [], WHOLE)
  {
    Pow2Constants();
    assert Pow2(13) == 0x2000 by {
      Pow2Add(8, 4);
      assert Pow2(13) == 2 * Pow2(12);
    }
  }

  lemma NarrowDenotes(r: Registers, data: seq<int>, iv: Interval, sv: int, bit: int, r': Registers)
    requires Denote(r, data, iv) && 0x8000 <= r.a && IsBin(sv)
    requires var n := Narrow(iv, sv, bit); r' == r.(c := r.c + (n.low - iv.low), a := n.size)
    ensures Denote(r', data, Narrow(iv, sv, bit))
  {
    assert Pending(r', data) == Pending(r, data);
  }

  lemma ShiftDenotes(r: Registers, data: seq<int>, iv: Interval)
    requires Denote(r, data, iv) && r.ct > 0 && r.a < 0x8000
    ensures Denote(r.(c := 2 * r.c, a := 2 * r.a, ct := r.ct - 1), data, Double(iv))
  {
    var v := Val(Pending(r, data));
    assert Pow2(27 - r.ct + 1) == 2 * Pow2(27 - r.ct);
    assert v * (2 * Pow2(27 - r.ct)) == 2 * (v * Pow2(27 - r.ct));
    assert Pending(r.(c := 2 * r.c, a := 2 * r.a, ct := r.ct - 1), data) == Pending(r, data);
  }

  /** The spacer bits at work: a completed byte is below 288, so after a carry the new
      byte is below 32. */
  lemma CompletedByteBound(r: Registers, data: seq<int>, iv: Interval)
    requires Denote(r, data, iv) && r.ct == 0
    ensures 0 <= r.c / 0x80000 < 288
  {
    Pow2Constants();
  }

  /** With no byte buffered, everything so far is 0xFF: the value is as large as it can be. */
  lemma OnesFillUp(r: Registers, data: seq<int>, n: nat)
    requires 0 <= r.sc && 0 <= r.zc
    ensures r.buffer < 0 && data == [] && r.zc == 0 ==>
      Val(Pending(r, data)) * Pow2(n) + Pow2(n) == Pow2(8 * |Pending(r, data)| + n)
  {
    if r.buffer < 0 && data == [] && r.zc == 0 {
      assert Pending(r, data) == Fill(255, r.sc);
      ValOfFill(r.sc);
      Pow2Add(8 * r.sc, n);
    }
  }

  /** A carry always finds a byte to land in. */
  lemma CarryHasBuffer(r: Registers, data: seq<int>, iv: Interval)
    requires Denote(r, data, iv) && r.c >= Pow2(27 - r.ct)
    ensures r.buffer >= 0
  {
    OnesFillUp(r, data, 27 - r.ct);
  }

  /** What a carry makes of the pending bytes. */
  function Carried(r: Registers, data: seq<int>): seq<int>
    requires 0 <= r.sc && 0 <= r.zc
  {
    data + Fill(0, r.zc) + [r.buffer + 1] + Fill(0, r.sc)
  }

  lemma CarriedValue(r: Registers, data: seq<int>)
    requires 0 <= r.sc && 0 <= r.zc && 0 <= r.buffer
    ensures Val(Carried(r, data)) == Val(Pending(r, data)) + 1
    ensures |Carried(r, data)| == |Pending(r, data)|
  {
    hide Val, Pow2;
    var head := data + Fill(0, r.zc);
    ValConcat(head + [r.buffer], Fill(255, r.sc));
    ValConcat(head + [r.buffer + 1], Fill(0, r.sc));
    ValSnoc(head, r.buffer);
    ValSnoc(head, r.buffer + 1);
    ValOfFill(r.sc);
    OneMore(256 * Val(head) + r.buffer, Pow2(8 * r.sc));
  }

  lemma OneMore(x: int, p: int)
    ensures (x + 1) * p == x * p + p
  {
  }

  /** Emission when no carry is possible any more: the held zeros and buffered byte go
      out unless they are themselves zeros that can be held, then the stacked 0xFFs. */
  function Settled(data: seq<int>, zc: nat, buffer: int, sc: nat): (p: (seq<int>, nat))
    requires -1 <= buffer <= 0xFE
    ensures Trimmed(data) ==> Trimmed(p.0)
  {
    var d1 := if buffer > 0 then data + Fill(0, zc) + [buffer] else data;
    var z1 := if buffer > 0 then 0 else if buffer == 0 then zc + 1 else zc;
    if sc > 0 then (d1 + Fill(0, z1) + Fill(255, sc), 0) else (d1, z1)
  }

  lemma SettledIsPending(r: Registers, data: seq<int>)
    requires 0 <= r.sc && 0 <= r.zc && -1 <= r.buffer <= 0xFE && (r.buffer < 0 ==> r.zc == 0)
    ensures var (d, z) := Settled(data, r.zc, r.buffer, r.sc); d + Fill(0, z) == Pending(r, data)
  {
    assert r.buffer == 0 ==> Fill(0, r.zc) + [0] == Fill(0, r.zc + 1);
  }

  /** The registers after a completed byte has been taken out of C. */
  function Byte(r: Registers, data: seq<int>): (p: (Registers, seq<int>))
    requires 0 <= r.sc && 0 <= r.zc && -1 <= r.buffer <= 0xFE && 0 <= r.c
    requires r.buffer < 0 ==> r.zc == 0
  {
    var temp := r.c / 0x80000;
    var r1 := r.(c := r.c % 0x80000, ct := r.ct + 8);
    if temp > 0xFF then
      (r1.(buffer := temp % 256, zc := r.sc, sc := 0), data + Fill(0, r.zc) + [r.buffer + 1])
    else if temp == 0xFF then
      (r1.(sc := r.sc + 1), data)
    else
      var (d, z) := Settled(data, r.zc, r.buffer, r.sc);
      (r1.(buffer := temp, zc := z, sc := 0), d)
  }

  lemma CarryByteDenotes(r: Registers, data: seq<int>, iv: Interval)
    requires Denote(r, data, iv) && r.ct == 0 && r.c / 0x80000 > 0xFF
    ensures 0 <= r.buffer && Denote(Byte(r, data).0, Byte(r, data).1, iv)
  {
    Pow2Constants();
    CompletedByteBound(r, data, iv);
    CarryHasBuffer(r, data, iv);
    CarriedValue(r, data);
    var (r', d') := Byte(r, data);
    assert Pending(r', d') == Carried(r, data) + [r'.buffer];
    ValSnoc(Carried(r, data), r'.buffer);
  }

  lemma StackByteDenotes(r: Registers, data: seq<int>, iv: Interval)
    requires Denote(r, data, iv) && r.ct == 0 && r.c / 0x80000 == 0xFF
    ensures Denote(Byte(r, data).0, Byte(r, data).1, iv)
  {
    hide Val, Pow2, Settled;
    Pow2Constants();
    var (r', d') := Byte(r, data);
    assert Pending(r', d') == Pending(r, data) + [0xFF];
    ValSnoc(Pending(r, data), 0xFF);
  }

  lemma PlainByteDenotes(r: Registers, data: seq<int>, iv: Interval)
    requires Denote(r, data, iv) && r.ct == 0 && r.c / 0x80000 < 0xFF
    ensures Denote(Byte(r, data).0, Byte(r, data).1, iv)
  {
    Pow2Constants();
    var (r', d') := Byte(r, data);
    var temp := r.c / 0x80000;
    SettledIsPending(r, data);
    assert Pending(r', d') == Pending(r, data) + [temp];
    ValSnoc(Pending(r, data), temp);
  }

  /** Taking a completed byte out of C, in all three cases, leaves the denoted interval
      unchanged; a carry is absorbed exactly. */
  lemma ByteDenotes(r: Registers, data: seq<int>, iv: Interval)
    requires Denote(r, data, iv) && r.ct == 0
    ensures Denote(Byte(r, data).0, Byte(r, data).1, iv)
    ensures r.c / 0x80000 > 0xFF ==> 0 <= r.buffer
  {
    if r.c / 0x80000 > 0xFF {
      CarryByteDenotes(r, data, iv);
    } else if r.c / 0x80000 == 0xFF {
      StackByteDenotes(r, data, iv);
    } else {
      PlainByteDenotes(r, data, iv);
    }
  }

  // Termination (section D.1.8) --------------------------------------------------------

  /** The value in [c, c + a) with the most trailing zero bits. */
  function Pick(c: int, a: int): int {
    var t := (a - 1 + c) - (a - 1 + c) % 0x10000;
    if t < c then t + 0x8000 else t
  }

  lemma PickInside(c: int, a: int)
    requires 0 <= c && 0x8000 <= a <= 0x10000
    ensures c <= Pick(c, a) < c + a && Pick(c, a) % 0x8000 == 0
  {
  }

  /** A multiple of 0x10000 in the interval is picked. */
  lemma PickUnique(c: int, a: int, v: int)
    requires 0 <= c && 0x8000 <= a <= 0x10000 && c <= v < c + a && v % 0x10000 == 0
    ensures v == Pick(c, a)
  {
  }

  /** The data bytes of the finished segment, `c` being C after the pick and the final
      shift: the pending bytes with any last carry, then at most two bytes of C, without
      trailing zeros. */
  function Ending(r: Registers, c: int, data: seq<int>): seq<int>
    requires 0 <= r.sc && 0 <= r.zc && -1 <= r.buffer <= 0xFE && (r.buffer < 0 ==> r.zc == 0)
  {
    var (d, z) := if c / 0x8000000 != 0 then (data + Fill(0, r.zc) + [r.buffer + 1], r.sc)
                  else Settled(data, r.zc, r.buffer, r.sc);
    var x, y := c / 0x80000 % 256, c / 0x800 % 256;
    if x == 0 && y == 0 then d
    else if y == 0 then d + Fill(0, z) + [x]
    else d + Fill(0, z) + [x, y]
  }

  lemma EndingIgnoresC(r: Registers, c: int, data: seq<int>)
    requires 0 <= r.sc && 0 <= r.zc && -1 <= r.buffer <= 0xFE && (r.buffer < 0 ==> r.zc == 0)
    ensures Ending(r.(c := c), c, data) == Ending(r, c, data)
  {
  }

  /** The same bytes before trailing zeros are dropped. */
  function Untrimmed(r: Registers, c: int, data: seq<int>): seq<int>
    requires 0 <= r.sc && 0 <= r.zc
  {
    (if c / 0x8000000 != 0 then Carried(r, data) else Pending(r, data)) +
    [c / 0x80000 % 256, c / 0x800 % 256]
  }

  /** `total` is `data` up to trailing zeros. */
  ghost predicate Extends(total: seq<int>, data: seq<int>) {
    |data| <= |total| && total[..|data|] == data &&
    forall i :: |data| <= i < |total| ==> total[i] == 0
  }

  lemma TwoBytesExtend(d: seq<int>, z: nat, x: int, y: int)
    requires 0 <= x <= 255 && 0 <= y <= 255
    ensures var e := if x == 0 && y == 0 then d else if y == 0 then d + Fill(0, z) + [x] else d + Fill(0, z) + [x, y];
      Extends(d + Fill(0, z) + [x, y], e) && (Trimmed(d) ==> Trimmed(e))
  {
  }

  lemma CarriedExtends(r: Registers, data: seq<int>, x: int, y: int)
    requires 0 <= r.sc && 0 <= r.zc && 0 <= r.buffer <= 0xFE && 0 <= x <= 255 && 0 <= y <= 255 && Trimmed(data)
    ensures var d, z := data + Fill(0, r.zc) + [r.buffer + 1], r.sc;
      var e := if x == 0 && y == 0 then d else if y == 0 then d + Fill(0, z) + [x] else d + Fill(0, z) + [x, y];
      Extends(d + Fill(0, z) + [x, y], e) && Trimmed(e)
  {
    hide Extends;
    var d := data + Fill(0, r.zc) + [r.buffer + 1];
    assert Trimmed(d);
    TwoBytesExtend(d, r.sc, x, y);
  }

  lemma EndingExtends(r: Registers, c: int, data: seq<int>)
    requires 0 <= r.sc && 0 <= r.zc && -1 <= r.buffer <= 0xFE && (r.buffer < 0 ==> r.zc == 0)
    requires Trimmed(data) && (c / 0x8000000 != 0 ==> 0 <= r.buffer)
    ensures Extends(Untrimmed(r, c, data), Ending(r, c, data)) && Trimmed(Ending(r, c, data))
  {
    hide Settled, Pending, Extends;
    var x, y := c / 0x80000 % 256, c / 0x800 % 256;
    if c / 0x8000000 != 0 {
      CarriedExtends(r, data, x, y);
    } else {
      var p := Settled(data, r.zc, r.buffer, r.sc);
      SettledIsPending(r, data);
      TwoBytesExtend(p.0, p.1, x, y);
    }
  }

  lemma SplitRegister(c: int)
    requires 0 <= c < 0x10000000 && c % 0x800 == 0
    ensures c / 0x8000000 == 0 || c / 0x8000000 == 1
    ensures c == c / 0x8000000 * 0x8000000 + c / 0x80000 % 256 * 0x80000 + c / 0x800 % 256 * 0x800
  {
    var p := c / 0x800;
    var q := p / 256;
    ModUnique(c, 0x80000, q, (p % 256) * 0x800);
    ModUnique(c, 0x8000000, q / 256, (q % 256) * 0x80000 + (p % 256) * 0x800);
  }

  lemma UntrimmedValue(r: Registers, c: int, data: seq<int>)
    requires 0 <= r.sc && 0 <= r.zc && 0 <= c < 0x10000000 && c % 0x800 == 0
    requires c / 0x8000000 != 0 ==> 0 <= r.buffer
    ensures Val(Untrimmed(r, c, data)) * 0x800 == Val(Pending(r, data)) * 0x8000000 + c
    ensures |Untrimmed(r, c, data)| == |Pending(r, data)| + 2
  {
    hide Val, Carried, Pending;
    var head := if c / 0x8000000 != 0 then Carried(r, data) else Pending(r, data);
    if c / 0x8000000 != 0 {
      CarriedValue(r, data);
    }
    var x, y := c / 0x80000 % 256, c / 0x800 % 256;
    SplitRegister(c);
    ValSnoc(head, x);
    ValSnoc(head + [x], y);
    assert head + [x] + [y] == Untrimmed(r, c, data);
  }

  lemma LeadOfTrimmed(total: seq<int>, data: seq<int>, e: nat)
    requires Extends(total, data)
    ensures Lead(data, |total| + e) == total + Fill(0, e)
    ensures Val(Lead(data, |total| + e)) == Val(total) * Pow2(8 * e)
  {
    var lead := Lead(data, |total| + e);
    forall i | 0 <= i < |lead| ensures lead[i] == (total + Fill(0, e))[i] {
      if i < |data| {
        assert total[..|data|][i] == data[i];
      }
    }
    ValConcat(total, Fill(0, e));
    ValOfFill(e);
  }

  lemma CrossMultiply(t: int, p: int, point: int, q: int, r: int)
    requires t * 0x800 == point * q && q * p == r * 0x800
    ensures t * p == point * r
  {
    MulAssoc(point, q, p);
    MulAssoc(point, r, 0x800);
    assert (t * 0x800) * p == (t * p) * 0x800;
  }

  lemma PowersMatch(ct: nat, e: nat, spare: nat)
    requires spare + 11 == ct + e
    ensures Pow2(ct) * Pow2(e) == Pow2(spare) * 0x800
  {
    hide Pow2;
    Pow2Add(spare, 11);
    Pow2Add(ct, e);
    Pow2Constants();
  }

  lemma Rescale(point: int, t: int, ct: nat, e: nat, spare: nat)
    requires t * 0x800 == point * Pow2(ct) && spare + 11 == ct + e
    ensures t * Pow2(e) == point * Pow2(spare)
  {
    PowersMatch(ct, e, spare);
    CrossMultiply(t, Pow2(e), point, Pow2(ct), Pow2(spare));
  }

  lemma ShiftFits(point: int, ct: nat)
    requires 1 <= ct <= 11 && 0 <= point < 9 * Pow2(24 - ct)
    ensures 0 <= point * Pow2(ct) < 0x10000000
  {
    hide Pow2;
    Pow2Constants();
    Pow2Add(24 - ct, ct);
    MulLt(point, 9 * Pow2(24 - ct), Pow2(ct));
    MulAssoc(9, Pow2(24 - ct), Pow2(ct));
    MulLe(0, point, Pow2(ct));
  }

  lemma ShiftKeepsLowBitsClear(point: int, p: int)
    requires point % 0x8000 == 0
    ensures point * p % 0x800 == 0
  {
    var w := point / 0x8000;
    Rotate(w, 0x8000, p);
    var x := w * p;
    assert w * 0x8000 == point;
    HighBits(x);
  }

  lemma HighBits(x: int)
    ensures x * 0x8000 % 0x800 == 0
  {
    assert x * 0x8000 == (x * 16) * 0x800;
  }

  lemma ShiftCarries(point: int, ct: nat)
    requires 0 <= point && 1 <= ct <= 11 && point * Pow2(ct) >= 0x8000000
    ensures point >= Pow2(27 - ct)
  {
    hide Pow2;
    Pow2Constants();
    Pow2Add(27 - ct, ct);
    if point < Pow2(27 - ct) {
      MulLt(point, Pow2(27 - ct), Pow2(ct));
    }
  }

  lemma ShiftDistributes(v: int, point: int, ct: nat)
    requires 1 <= ct <= 11
    ensures (v * Pow2(27 - ct) + point) * Pow2(ct) == v * 0x8000000 + point * Pow2(ct)
  {
    hide Pow2;
    Pow2Constants();
    Pow2Add(27 - ct, ct);
    MulAssoc(v, Pow2(27 - ct), Pow2(ct));
  }

  /** The picked point, shifted up by ct, still fits in 28 bits, keeps its low bits clear,
      and can only carry into a byte that exists. */
  lemma ShiftedPick(r: Registers, data: seq<int>, iv: Interval, point: int)
    requires Denote(r, data, iv) && 1 <= r.ct && r.c <= point < r.c + r.a && point % 0x8000 == 0
    ensures var c := point * Pow2(r.ct);
      0 <= c < 0x10000000 && c % 0x800 == 0 && (c / 0x8000000 != 0 ==> 0 <= r.buffer)
  {
    hide Pow2;
    ShiftFits(point, r.ct);
    ShiftKeepsLowBitsClear(point, Pow2(r.ct));
    if point * Pow2(r.ct) >= 0x8000000 {
      ShiftCarries(point, r.ct);
      var moved := point - r.c;
      var r' := r.(c := point, a := r.a - moved);
      assert Pending(r', data) == Pending(r, data);
      CarryHasBuffer(r', data, Interval(iv.low + moved, iv.size - moved, iv.shifts));
    }
  }

  /** Base value of the pending bytes, in units of C. */
  function Base(r: Registers, data: seq<int>): int
    requires 0 <= r.sc && 0 <= r.zc && r.ct <= 27
  {
    Val(Pending(r, data)) * Pow2(27 - r.ct)
  }

  /** What a decoder reads from the finished segment is exactly the picked point, although
      its trailing zeros were dropped. */
  lemma EndingValue(r: Registers, data: seq<int>, iv: Interval, point: int)
    requires Denote(r, data, iv) && 1 <= r.ct && r.c <= point < r.c + r.a && point % 0x8000 == 0
    ensures var e := Ending(r, point * Pow2(r.ct), data);
      Trimmed(e) && |e| <= Taken(iv.shifts) &&
      Val(Lead(e, Taken(iv.shifts))) == (Base(r, data) + point) * Pow2(Spare(iv.shifts))
  {
    hide Pow2, Ending, Untrimmed;
    var c := point * Pow2(r.ct);
    ShiftedPick(r, data, iv, point);
    var total := Untrimmed(r, c, data);
    EndingExtends(r, c, data);
    UntrimmedValue(r, c, data);
    ShiftDistributes(Val(Pending(r, data)), point, r.ct);
    var extra := Taken(iv.shifts) - |total|;
    Rescale(Base(r, data) + point, Val(total), r.ct, 8 * extra, Spare(iv.shifts));
    LeadOfTrimmed(total, Ending(r, c, data), extra);
  }

  /** Section D.1.8: the finished segment spells the final interval. */
  lemma EndingSpells(r: Registers, data: seq<int>, iv: Interval, point: int)
    requires Denote(r, data, iv) && 1 <= r.ct && r.c <= point < r.c + r.a && point % 0x8000 == 0
    ensures var e := Ending(r, point * Pow2(r.ct), data); Trimmed(e) && Spells(e, iv)
  {
    hide Pow2, Ending;
    EndingValue(r, data, iv, point);
    var unit := Pow2(Spare(iv.shifts));
    var at := Base(r, data) + point;
    MulLe(iv.low, at, unit);
    MulLt(at, iv.low + iv.size, unit);
  }

  // The finished segment is the shortest one -------------------------------------------

  lemma {:induction false} ValPositive(t: seq<int>, j: nat)
    requires IsBytes(t) && j < |t| && t[j] > 0
    ensures 0 < Val(t)
  {
    if j < |t| - 1 {
      ValPositive(t[..|t| - 1], j);
    } else {
      ValBounds(t[..|t| - 1]);
    }
  }

  lemma LeadSplits(e: seq<int>, l: nat, m: nat) returns (hi: int, lo: int)
    requires Trimmed(e) && l < |e| <= m
    ensures Val(Lead(e, m)) == hi * Pow2(8 * (m - l)) + lo && 0 < lo < Pow2(8 * (m - l))
  {
    hide Val, Pow2;
    var s := Lead(e, m);
    assert s == s[..l] + s[l..];
    ValConcat(s[..l], s[l..]);
    ValBounds(s[l..]);
    assert s[l..][|e| - 1 - l] == e[|e| - 1];
    ValPositive(s[l..], |e| - 1 - l);
    hi, lo := Val(s[..l]), Val(s[l..]);
  }

  /** A multiple of 2^15 * 2^spare cannot leave a remainder modulo a smaller power. */
  lemma NoRemainder(at: int, spare: nat, n: nat, hi: int, lo: int)
    requires at % 0x8000 == 0 && at * Pow2(spare) == hi * Pow2(n) + lo && 0 < lo < Pow2(n)
    ensures n >= spare + 16
  {
    hide Pow2;
    if n < spare + 16 {
      var w, d := at / 0x8000, Pow2(spare + 15 - n);
      Pow2Add(spare + 15 - n, n);
      Pow2Add(15, spare);
      Pow2Constants();
      var u := Pow2(n);
      MulAssoc(w, 0x8000, Pow2(spare));
      MulAssoc(w, d, u);
      MultipleInside(w * d, hi, u, lo);
    }
  }

  lemma MultipleInside(x: int, hi: int, u: int, lo: int)
    requires 0 < lo < u
    ensures x * u != hi * u + lo
  {
    if x <= hi {
      MulLe(x, hi, u);
    } else {
      MulLe(hi + 1, x, u);
    }
  }

  lemma BaseAligned(r: Registers, data: seq<int>)
    requires 0 <= r.sc && 0 <= r.zc && 1 <= r.ct <= 11
    ensures Base(r, data) % 0x10000 == 0
  {
    hide Pow2;
    Pow2Add(11 - r.ct, 16);
    Pow2Constants();
    MulAssoc(Val(Pending(r, data)), Pow2(11 - r.ct), 0x10000);
  }

  /** A code ending on a coarse boundary is a multiple of 0x10000 in interval units. */
  lemma CoarsePoint(low: int, high: int, spare: nat, n: nat, w: int) returns (at: int)
    requires n >= spare + 16
    requires low * Pow2(spare) <= w * Pow2(n) < high * Pow2(spare)
    ensures w * Pow2(n) == at * Pow2(spare) && at % 0x10000 == 0 && low <= at < high
  {
    hide Pow2;
    var s := Pow2(spare);
    Pow2Add(n - spare, spare);
    Pow2Add(n - spare - 16, 16);
    Pow2Constants();
    at := w * Pow2(n - spare);
    MulAssoc(w, Pow2(n - spare), s);
    MulAssoc(w, Pow2(n - spare - 16), 0x10000);
    if at < low { MulLt(at, low, s); }
    if high <= at { MulLe(high, at, s); }
  }

  /** If the picked point leaves a remainder at some byte boundary, then no code in the
      interval ends there. */
  lemma NoCodeEndsBefore(low: int, high: int, pick: int, spare: nat, n: nat, hi: int, lo: int, w: int)
    requires pick % 0x8000 == 0 && forall at :: low <= at < high && at % 0x10000 == 0 ==> at == pick
    requires pick * Pow2(spare) == hi * Pow2(n) + lo && 0 < lo < Pow2(n)
    ensures !(low * Pow2(spare) <= w * Pow2(n) < high * Pow2(spare))
  {
    hide Pow2;
    NoRemainder(pick, spare, n, hi, lo);
    if low * Pow2(spare) <= w * Pow2(n) < high * Pow2(spare) {
      var at := CoarsePoint(low, high, spare, n, w);
      MultipleInside(w, hi, Pow2(n), lo);
    }
  }

  lemma OnlyPick(base: int, c: int, a: int)
    requires 0 <= c && 0x8000 <= a <= 0x10000 && base % 0x10000 == 0
    ensures (base + Pick(c, a)) % 0x8000 == 0
    ensures forall at :: base + c <= at < base + c + a && at % 0x10000 == 0 ==> at == base + Pick(c, a)
  {
    hide Pick;
    PickInside(c, a);
    ShiftedMultiples(base, Pick(c, a));
    forall at | base + c <= at < base + c + a && at % 0x10000 == 0 ensures at == base + Pick(c, a) {
      ShiftedMultiples(base, at - base);
      PickUnique(c, a, at - base);
    }
  }

  lemma ShiftedMultiples(base: int, x: int)
    requires base % 0x10000 == 0
    ensures x % 0x8000 == 0 ==> (base + x) % 0x8000 == 0
    ensures (base + x) % 0x10000 == 0 ==> x % 0x10000 == 0
  {
    var k, y, z := base / 0x10000, x / 0x8000, (base + x) / 0x10000;
    assert base == k * 0x10000;
    if x % 0x8000 == 0 {
      ModUnique(base + x, 0x8000, 2 * k + y, 0);
    }
    if (base + x) % 0x10000 == 0 {
      ModUnique(x, 0x10000, z - k, 0);
    }
  }

  lemma PickIsShortest(e: seq<int>, iv: Interval, base: int, c: int, a: int, other: seq<int>)
    requires 0 <= c && 0x8000 <= a <= 0x10000 && iv.low == base + c && iv.size == a && base % 0x10000 == 0
    requires Trimmed(e) && |e| <= Taken(iv.shifts)
    requires Val(Lead(e, Taken(iv.shifts))) == (base + Pick(c, a)) * Pow2(Spare(iv.shifts))
    requires IsBytes(other) && Spells(other, iv)
    ensures |e| <= |other|
  {
    hide Pow2, Pick, Taken, Spare;
    if |other| < |e| {
      var m := Taken(iv.shifts);
      var n := 8 * (m - |other|);
      var hi, lo := LeadSplits(e, |other|, m);
      LeadOfTrimmed(other, other, m - |other|);
      OnlyPick(base, c, a);
      NoCodeEndsBefore(iv.low, iv.low + iv.size, base + Pick(c, a), Spare(iv.shifts), n, hi, lo, Val(other));
    }
  }

  /** Any code for the interval has at least as many data bytes as the one `finish_pass`
      writes: the pick and the discarding of zeros give the shortest segment. */
  lemma EndingIsShortest(r: Registers, data: seq<int>, iv: Interval, other: seq<int>)
    requires Denote(r, data, iv) && 1 <= r.ct && 0x8000 <= r.a
    requires IsBytes(other) && Spells(other, iv)
    ensures |Ending(r, Pick(r.c, r.a) * Pow2(r.ct), data)| <= |other|
  {
    hide Pow2, Ending, Pick;
    PickInside(r.c, r.a);
    var point := Pick(r.c, r.a);
    EndingValue(r, data, iv, point);
    BaseAligned(r, data);
    PickIsShortest(Ending(r, point * Pow2(r.ct), data), iv, Base(r, data), r.c, r.a, other);
  }
}
