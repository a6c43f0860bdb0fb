/** The arithmetic decoder's coefficient routines: each asks for exactly the bins of the tape
    that is coded, and rebuilds the coefficients from the bits. */
module ArithCoefDecoder {
  import opened Numbers
  import opened IntervalCoder
  import opened Values
  import opened BandPlan
  import opened BandEncoder
  import opened BandDecoder
  import opened SequentialEncoder
  import opened ArithTape
  import opened ArithCoefEncoder
  import ArithDecoder

  /** The arithmetic decoder together with the decisions its segment was coded from. */
  class Asker {
    const d: ArithDecoder.Decoder
    ghost const all: seq<Decision>
    ghost var k: nat

    ghost predicate Valid()
      reads this, d
    {
      && d.Valid() && Binary(all) && k <= |all| && d.asked == Bins(all[..k]) && Spells(d.code, Run(all).iv)
    }

    /** The decisions still to come. */
    ghost function Ahead(): seq<Decision>
      reads this
    {
      if k <= |all| then all[k..] else []
    }

    constructor (decoder: ArithDecoder.Decoder, ghost tape: seq<Decision>)
      requires decoder.Valid() && decoder.asked == [] && Binary(tape) && Spells(decoder.code, Run(tape).iv)
      ensures Valid() && Ahead() == tape && d == decoder
    {
      hide Spells, Run, ArithDecoder.Decoder.Valid;
      d, all, k := decoder, tape, 0;
      new;
      assert Bins(all[..0]) == [];
    }

    /** arith_decode for the bin the tape asks next. */
    method Ask(bin: Bin, ghost rest: seq<Decision>) returns (bit: int)
      requires Valid() && |Ahead()| > 0 && Ahead()[0].bin == bin && Ahead()[1..] == rest
      modifies this, d
      ensures Valid() && bit == old(Ahead())[0].bit && Ahead() == rest && 0 <= bit <= 1
    {
      hide Spells, Run, Decoding, ArithDecoder.Decoder.Valid;
      NextIs(bin);
      ghost var earlier, next := Decoding(d.code, d.asked).bits, all[k].bit;
      bit := d.Decode(bin);
      assert (earlier + [bit])[|earlier|] == bit && (earlier + [next])[|earlier|] == next;
      k := k + 1;
    }

    lemma NextIs(bin: Bin)
      requires Valid() && k < |all| && all[k].bin == bin
      ensures d.asked + [bin] == Bins(all[..k + 1]) && 0 <= all[k].bit <= 1
      ensures Decoding(d.code, d.asked + [bin]).bits == Decoding(d.code, d.asked).bits + [all[k].bit]
    {
      hide Spells, Run, Decoding, ArithDecoder.Decoder.Valid;
      CodeIsBytes();
      ghost var before, after := all[..k], all[..k + 1];
      PrefixSpells(d.code, all, k);
      PrefixSpells(d.code, all, k + 1);
      DecodeInvertsRun(d.code, before);
      DecodeInvertsRun(d.code, after);
      assert Bins(after) == Bins(before) + [bin];
      assert IntervalCoder.Bits(after) == IntervalCoder.Bits(before) + [all[k].bit];
    }

    lemma CodeIsBytes()
      requires Valid()
      ensures IsBytes(d.code)
    {
      hide Spells, Run, Decoding;
    }
  }

  const OVERFLOW := 0x8000

  /** Figure F.23, after the first decision: false on overflow. */
  method DecodeCategory(a: Asker, dc: bool, t: nat, x: nat, m0: nat, ghost n: nat, ghost rest: seq<Decision>)
    returns (ok: bool, st: nat, m: nat)
    requires a.Valid() && a.Ahead() == Category(dc, t, x, 0, n) + rest && 0 < m0 && m0 * Pow2(n) < OVERFLOW
    modifies a, a.d
    ensures ok && a.Valid() && st == x + n && m == m0 * Pow2(n) && a.Ahead() == rest
  {
    hide Pow2, Asker.Valid, Asker.Ahead;
    st, m, ok := x, m0, true;
    ghost var i: nat := 0;
    LogOne();
    CategoryHead(dc, t, x, 0, n, rest);
    var bit := a.Ask(AreaBin(dc, t, st), if 0 < n then Category(dc, t, x, 1, n) + rest else rest);
    while bit != 0
      invariant a.Valid() && i <= n && st == x + i && m == m0 * Pow2(i) && 0 <= bit <= 1 && (bit != 0 <==> i < n)
      invariant a.Ahead() == if i < n then Category(dc, t, x, i + 1, n) + rest else rest
      decreases n - i
    {
      PowNext(m0, i);
      PowLess(m0, i + 1, n);
      m := m * 2;
      if m == OVERFLOW {
        return false, st, m;
      }
      st := st + 1;
      i := i + 1;
      CategoryHead(dc, t, x, i, n, rest);
      bit := a.Ask(AreaBin(dc, t, st), if i < n then Category(dc, t, x, i + 1, n) + rest else rest);
    }
  }

  lemma CategoryHead(dc: bool, t: nat, x: nat, i: nat, n: nat, rest: seq<Decision>)
    requires i <= n
    ensures Category(dc, t, x, i, n) + rest ==
            [Decision(AreaBin(dc, t, x + i), if i < n then 1 else 0)] +
            if i < n then Category(dc, t, x, i + 1, n) + rest else rest
  {
  }

  lemma PowLess(m0: nat, i: nat, n: nat)
    requires i <= n
    ensures m0 * Pow2(i) <= m0 * Pow2(n)
  {
    hide Pow2;
    Pow2Monotonic(i, n);
    MulLe(Pow2(i), Pow2(n), m0);
  }

  /** Figure F.24: the leading one and the bits below it. */
  method DecodeMagnitude(a: Asker, bin: Bin, m0: nat, ghost value: nat, ghost n: nat, ghost rest: seq<Decision>)
    returns (v: nat)
    requires a.Valid() && a.Ahead() == (if m0 == 0 then [] else MagnitudeBits(bin, value, n)) + rest
    requires if m0 == 0 then value == 0 else m0 == Pow2(n) <= value < 2 * m0
    modifies a, a.d
    ensures a.Valid() && v == value && a.Ahead() == rest
  {
    hide Pow2, Asker.Valid, Asker.Ahead;
    v := m0;
    var m := m0 / 2;
    ghost var i := n;
    if m0 == 0 {
      assert [] + rest == rest;
      return;
    }
    HalfPower(n);
    TopBit(value, n);
    while m > 0
      invariant a.Valid() && m == (if i == 0 then 0 else Pow2(i - 1)) && v == value / Pow2(i) * Pow2(i)
      invariant a.Ahead() == MagnitudeBits(bin, value, i) + rest
      decreases i
    {
      assert MagnitudeBits(bin, value, i) + rest ==
        [Decision(bin, BitAt(value, i - 1))] + (MagnitudeBits(bin, value, i - 1) + rest);
      var bit := a.Ask(bin, MagnitudeBits(bin, value, i - 1) + rest);
      NextBit(value, i - 1);
      if bit != 0 {
        v := v + m;
      }
      i := i - 1;
      HalfPower(i);
      m := m / 2;
    }
    WholeValue(value);
    assert MagnitudeBits(bin, value, 0) + rest == rest;
  }

  lemma TopBit(value: nat, n: nat)
    requires Pow2(n) <= value < 2 * Pow2(n)
    ensures value / Pow2(n) * Pow2(n) == Pow2(n)
  {
    hide Pow2;
    ModUnique(value, Pow2(n), 1, value - Pow2(n));
  }

  lemma NextBit(value: nat, i: nat)
    ensures value / Pow2(i) * Pow2(i) == value / Pow2(i + 1) * Pow2(i + 1) + if BitAt(value, i) != 0 then Pow2(i) else 0
  {
    hide Pow2;
    var u := Pow2(i);
    PowTwice(i);
    HalfShift(value, i);
    var q := value / u;
    assert Shifted(value, i) == q && Shifted(value, i + 1) == value / (2 * u);
    assert q == 2 * (q / 2) + q % 2;
    Doubling(q / 2, u, q % 2);
  }

  lemma Doubling(h: int, u: int, b: int)
    requires b == 0 || b == 1
    ensures (2 * h + b) * u == h * (2 * u) + if b != 0 then u else 0
  {
  }

  lemma WholeValue(value: nat)
    ensures value / Pow2(0) * Pow2(0) == value
  {
  }

  lemma LogRange(v: nat)
    requires v > 0
    ensures Pow2(Log2(v)) <= v < 2 * Pow2(Log2(v))
  {
  }

  /** Decode_DC_DIFF: the difference, and the conditioning category for the next block. */
  method DecodeDc(a: Asker, t: nat, context: nat, lower: nat, upper: nat, ghost diff: int, ghost rest: seq<Decision>)
    returns (ok: bool, v: int, next: nat)
    requires a.Valid() && a.Ahead() == DcTape(t, context, diff) + rest && Abs(diff) <= 0x8000
    modifies a, a.d
    ensures ok && a.Valid() && a.Ahead() == rest && v == diff && next == NextContext(diff, lower, upper)
  {
    hide Pow2, Log2, Asker.Valid, Asker.Ahead, DcTape, DcTail;
    ok, v, next := true, 0, 0;
    var st := context;
    ghost var tail := if diff == 0 then [] else DcTail(t, context + 2 + SignOf(diff), Abs(diff) - 1);
    DcParts(t, context, diff, rest);
    var bit := a.Ask(Dc(t, st),
      if diff != 0 then [Decision(Dc(t, context + 1), SignOf(diff))] + (tail + rest) else rest);
    if bit == 0 {
      return;
    }
    var sign := a.Ask(Dc(t, st + 1), tail + rest);
    st := st + 2;
    st := st + sign;
    var m;
    ok, m, v := DecodeDcMagnitude(a, t, st, Abs(diff) - 1, rest);
    if !ok {
      return;
    }
    if m < Pow2(lower) / 2 {
      next := 0;
    } else if m > Pow2(upper) / 2 {
      next := 12 + sign * 4;
    } else {
      next := 4 + sign * 4;
    }
    v := v + 1;
    if sign != 0 {
      v := -v;
    }
  }

  /** Category and magnitude; the conditioning uses the leading one m. */
  method DecodeDcMagnitude(a: Asker, t: nat, s: nat, ghost w: nat, ghost rest: seq<Decision>)
    returns (ok: bool, m: nat, v: nat)
    requires a.Valid() && w < 0x8000
    requires a.Ahead() == DcTail(t, s, w) + rest
    modifies a, a.d
    ensures ok && a.Valid() && a.Ahead() == rest && v == w && m == if w == 0 then 0 else Pow2(Log2(w))
  {
    hide Pow2, Log2, Asker.Valid, Asker.Ahead, Category, MagnitudeBits;
    var st := s;
    ok := true;
    ghost var n := if w == 0 then 0 else Log2(w);
    ghost var bits := (if w == 0 then [] else MagnitudeBits(Dc(t, DC_X1 + 14 + n), w, n)) + rest;
    if w != 0 {
      LogRange(w);
      assert a.Ahead() == [Decision(Dc(t, s), 1)] + (Category(true, t, DC_X1, 0, n) + bits);
    } else {
      assert a.Ahead() == [Decision(Dc(t, s), 0)] + bits;
    }
    m := a.Ask(Dc(t, st), if w == 0 then bits else Category(true, t, DC_X1, 0, n) + bits);
    v := 0;
    if m != 0 {
      ok, st, m := DecodeCategory(a, true, t, DC_X1, m, n, bits);
      if !ok {
        return;
      }
    }
    st := st + 14;
    v := DecodeMagnitude(a, Dc(t, st), m, w, n, rest);
  }

  // AC coefficients ------------------------------------------------------------------------------

  lemma AcTailParts(t: nat, k: nat, kx: int, w: nat, rest: seq<Decision>)
    requires k > 0
    ensures var s := 3 * (k - 1) + 2;
      AcTail(t, k, kx, w) + rest ==
      if w == 0 then [Decision(Ac(t, s), 0)] + rest
      else if w == 1 then [Decision(Ac(t, s), 1)] + ([Decision(Ac(t, s), 0)] + rest)
      else [Decision(Ac(t, s), 1)] + ([Decision(Ac(t, s), 1)] + (AcDeep(t, k, kx, w) + rest))
  {
    hide AcDeep;
  }

  method DecodeAcMagnitude(a: Asker, t: nat, k: nat, kx: int, ghost w: nat, ghost rest: seq<Decision>)
    returns (ok: bool, v: nat)
    requires a.Valid() && w < 0x8000 && k > 0 && a.Ahead() == AcTail(t, k, kx, w) + rest
    modifies a, a.d
    ensures ok && a.Valid() && a.Ahead() == rest && v == w
  {
    hide Asker.Valid, Asker.Ahead, AcTail, AcDeep;
    var st := 3 * (k - 1) + 2;
    ok := true;
    AcTailParts(t, k, kx, w, rest);
    ghost var next := if w <= 1 then rest else AcDeep(t, k, kx, w) + rest;
    var m := a.Ask(Ac(t, st), if w == 0 then rest else [Decision(Ac(t, st), if w == 1 then 0 else 1)] + next);
    v := m;
    if m != 0 {
      var bit := a.Ask(Ac(t, st), next);
      if bit != 0 {
        ok, v := DecodeDeep(a, t, k, kx, m * 2, w, rest);
      }
    }
  }

  method DecodeDeep(a: Asker, t: nat, k: nat, kx: int, m0: nat, ghost w: nat, ghost rest: seq<Decision>)
    returns (ok: bool, v: nat)
    requires a.Valid() && 1 < w < 0x8000 && m0 == 2 && a.Ahead() == AcDeep(t, k, kx, w) + rest
    modifies a, a.d
    ensures ok && a.Valid() && a.Ahead() == rest && v == w
  {
    hide Pow2, Log2, Asker.Valid, Asker.Ahead, Category, MagnitudeBits;
    LogRange(w);
    LogPositive(w);
    ghost var n: nat := Log2(w);
    ghost var bits := MagnitudeBits(Ac(t, AcX(k, kx) + 13 + n), w, n) + rest;
    PowTwice(n - 1);
    DeepParts(t, k, kx, w, rest);
    var st, m;
    v := 0;
    ok, st, m := DecodeCategory(a, false, t, if k <= kx then 189 else 217, m0, n - 1, bits);
    if !ok {
      return;
    }
    st := st + 14;
    v := DecodeMagnitude(a, Ac(t, st), m, w, n, rest);
  }

  lemma DeepParts(t: nat, k: nat, kx: int, w: nat, rest: seq<Decision>)
    requires w > 1
    ensures Log2(w) > 0
    ensures AcDeep(t, k, kx, w) + rest == Category(false, t, AcX(k, kx), 0, Log2(w) - 1) +
            (MagnitudeBits(Ac(t, AcX(k, kx) + 13 + Log2(w)), w, Log2(w)) + rest)
  {
    hide Log2, Category, MagnitudeBits;
    LogPositive(w);
  }

  /** A nonzero coefficient: sign, category, magnitude. */
  method DecodeValue(a: Asker, t: nat, k: nat, kx: int, ghost x: int, ghost rest: seq<Decision>)
    returns (ok: bool, v: int)
    requires a.Valid() && k > 0 && x != 0 && Abs(x) <= 0x8000 && a.Ahead() == ValueTape(t, k, kx, x) + rest
    modifies a, a.d
    ensures ok && a.Valid() && a.Ahead() == rest && v == x
  {
    hide Asker.Valid, Asker.Ahead, ValueTape, AcTail;
    ValueParts(t, k, kx, x, rest);
    var sign := a.Ask(Fixed, AcTail(t, k, kx, Abs(x) - 1) + rest);
    ok, v := DecodeAcMagnitude(a, t, k, kx, Abs(x) - 1, rest);
    v := v + 1;
    if sign != 0 {
      v := -v;
    }
  }

  /** The block during an AC scan: rebuilt below k, as before elsewhere. */
  ghost predicate Rebuilt(z: seq<int>, z0: seq<int>, w: seq<int>, ss: nat, k: nat) {
    |z| == |z0| == |w| == 64 && forall j :: 0 <= j < 64 ==> z[j] == if ss <= j < k then w[j] else z0[j]
  }

  /** Coefficients scaled back after the point transform. */
  ghost function Scaled(z: seq<int>, al: nat): (w: seq<int>)
    ensures |w| == |z| && forall k :: 0 <= k < |z| ==> w[k] == z[k] * Pow2(al)
  {
    seq(|z|, k requires 0 <= k < |z| => z[k] * Pow2(al))
  }

  lemma ZeroScaled(z: seq<int>, al: nat, j: nat)
    requires j < |z| && z[j] == 0
    ensures Scaled(z, al)[j] == 0
  {
    hide Pow2;
  }

  /** Zeros in the block stay what they were: the output area was cleared. */
  lemma RebuiltZeros(z: seq<int>, z0: seq<int>, x: seq<int>, al: nat, ss: nat, k: nat, n: nat)
    requires |x| == 64 && Rebuilt(z, z0, Scaled(x, al), ss, k) && ss <= k <= n <= 64
    requires forall j :: k <= j < n ==> x[j] == 0 && z0[j] == 0
    ensures Rebuilt(z, z0, Scaled(x, al), ss, n)
  {
    hide Pow2;
    forall j | k <= j < n ensures Scaled(x, al)[j] == 0 {
      ZeroScaled(x, al, j);
    }
  }

  lemma RunParts(t: nat, z: seq<int>, j: nat, ke: nat, kx: int, se: nat, rest: seq<Decision>)
    requires 0 < j <= ke <= se < |z| && z[ke] != 0
    ensures AcRun(t, z, j, ke, kx, se) + rest ==
      if z[j] == 0 then [Decision(Ac(t, 3 * (j - 1) + 1), 0)] + (AcRun(t, z, j + 1, ke, kx, se) + rest)
      else [Decision(Ac(t, 3 * (j - 1) + 1), 1)] + (ValueTape(t, j, kx, z[j]) + (AcTape(t, z, j, ke, kx, se) + rest))
  {
    hide ValueTape;
  }

  lemma TapeParts(t: nat, z: seq<int>, k: nat, ke: nat, kx: int, se: nat, rest: seq<Decision>)
    requires ke <= se < |z| && (ke > 0 ==> z[ke] != 0)
    ensures AcTape(t, z, k, ke, kx, se) + rest ==
      if k < ke then [Decision(Ac(t, 3 * k), 0)] + (AcRun(t, z, k + 1, ke, kx, se) + rest)
      else if k < se then [Decision(Ac(t, 3 * k), 1)] + rest
      else rest
  {
    hide AcRun;
  }

  /** The inner loop of figure F.20: the next nonzero coefficient, or overflow past the band. */
  method DecodeZeros(a: Asker, t: nat, start: nat, se: nat, ghost z: seq<int>, ghost ke: nat, ghost kx: int,
                     ghost rest: seq<Decision>)
    returns (ok: bool, k: nat)
    requires a.Valid() && start < ke <= se < |z| && z[ke] != 0 && a.Ahead() == AcRun(t, z, start + 1, ke, kx, se) + rest
    modifies a, a.d
    ensures ok && a.Valid() && start < k <= ke && z[k] != 0 && forall j :: start < j < k ==> z[j] == 0
    ensures a.Ahead() == ValueTape(t, k, kx, z[k]) + (AcTape(t, z, k, ke, kx, se) + rest)
  {
    hide Asker.Valid, Asker.Ahead, ValueTape, AcRun, AcTape;
    k, ok := start, true;
    var st := 3 * start;
    while true
      invariant a.Valid() && start <= k < ke && st == 3 * k && forall j :: start < j <= k ==> z[j] == 0
      invariant a.Ahead() == AcRun(t, z, k + 1, ke, kx, se) + rest
      decreases ke - k
    {
      k := k + 1;
      RunParts(t, z, k, ke, kx, se, rest);
      var bit := a.Ask(Ac(t, st + 1), if z[k] == 0 then AcRun(t, z, k + 1, ke, kx, se) + rest
                                      else ValueTape(t, k, kx, z[k]) + (AcTape(t, z, k, ke, kx, se) + rest));
      if bit != 0 {
        break;
      }
      st := st + 3;
      if k >= se {
        return false, k;
      }
    }
  }

  /** Figure F.20 over a band, into a block whose band is cleared. */
  method DecodeAc(a: Asker, t: nat, block: array<int>, order: seq<nat>, ss: nat, se: nat, al: nat, kx: int,
                  ghost z: seq<int>, ghost rest: seq<Decision>)
    returns (ok: bool)
    requires a.Valid() && block.Length == 64 && IsZigzag(order) && 1 <= ss <= se < 64 == |z|
    requires a.Ahead() == AcTape(t, z, ss - 1, EndIndex(z, se), kx, se) + rest
    requires forall j :: ss <= j <= se ==> Abs(z[j]) <= 0x8000 && Zigzag(block[..], order)[j] == 0
    modifies a, a.d, block
    ensures ok && a.Valid() && a.Ahead() == rest
    ensures Rebuilt(Zigzag(block[..], order), old(Zigzag(block[..], order)), Scaled(z, al), ss, se + 1)
  {
    hide Pow2, Asker.Valid, Asker.Ahead, ValueTape, AcRun, AcTape, EndIndex, Zigzag;
    ghost var ke, z0 := EndIndex(z, se), Zigzag(block[..], order);
    ok := true;
    var k := ss - 1;
    while k < se
      invariant ss - 1 <= k <= se && (k <= ke || k == ss - 1) && a.Valid()
      invariant a.Ahead() == AcTape(t, z, k, ke, kx, se) + rest
      invariant Rebuilt(Zigzag(block[..], order), z0, Scaled(z, al), ss, k + 1)
      decreases se - k
    {
      TapeParts(t, z, k, ke, kx, se, rest);
      var eob := a.Ask(Ac(t, 3 * k), if k < ke then AcRun(t, z, k + 1, ke, kx, se) + rest else rest);
      if eob != 0 {
        break;
      }
      ghost var from := k + 1;
      ok, k := DecodeZeros(a, t, k, se, z, ke, kx, rest);
      if !ok {
        return;
      }
      var v;
      ok, v := DecodeValue(a, t, k, kx, z[k], AcTape(t, z, k, ke, kx, se) + rest);
      if !ok {
        return;
      }
      RebuiltZeros(Zigzag(block[..], order), z0, z, al, ss, from, k);
      ZigzagUpdate(block[..], order, k, v * Pow2(al));
      ghost var was := block[..];
      block[order[k]] := v * Pow2(al);
      assert block[..] == was[order[k] := v * Pow2(al)];
    }
    if k < se {
      RebuiltZeros(Zigzag(block[..], order), z0, z, al, ss, k + 1, se + 1);
    } else {
      TapeParts(t, z, k, ke, kx, se, rest);
    }
  }

  // Refinement scans -----------------------------------------------------------------------------

  /** The block during a refinement: exact to bit al below k, as the earlier scans left it from
      k on, untouched outside the band. */
  ghost predicate Sharpened(z: seq<int>, z0: seq<int>, v: seq<int>, ss: nat, se: nat, al: nat, k: nat) {
    && |z| == |z0| == |v| == 64
    && forall j :: 0 <= j < 64 ==>
         z[j] == if ss <= j < k && j <= se then Trunc(v[j], al)
                 else if k <= j && ss <= j <= se then Trunc(v[j], al + 1)
                 else z0[j]
  }

  lemma SharpenOne(z: seq<int>, z0: seq<int>, v: seq<int>, ss: nat, se: nat, al: nat, k: nat)
    requires Sharpened(z, z0, v, ss, se, al, k) && ss <= k <= se < 64
    ensures Sharpened(z[k := Trunc(v[k], al)], z0, v, ss, se, al, k + 1)
  {
    hide Trunc;
  }

  lemma SharpenZeros(z: seq<int>, z0: seq<int>, v: seq<int>, ss: nat, se: nat, al: nat, k: nat, n: nat)
    requires Sharpened(z, z0, v, ss, se, al, k) && ss <= k <= n <= se + 1 <= 64
    requires forall j :: k <= j < n ==> Shifted(v[j], al) == 0
    ensures Sharpened(z, z0, v, ss, se, al, n)
  {
    hide Trunc, Shifted;
    forall j | k <= j < n ensures Trunc(v[j], al) == Trunc(v[j], al + 1) {
      OlderIs(v[j], al);
      BetweenZero(Trunc(v[j], al + 1), v[j], al);
      OlderZero(v[j], al);
    }
  }

  lemma OlderZero(v: int, al: nat)
    ensures Shifted(v, al) <= 1 <==> Trunc(v, al + 1) == 0
    ensures Shifted(v, al) <= 1 <==> TransformedCoef(v, al + 1) == 0
  {
    hide Pow2, Shifted;
    BetweenZero(Trunc(v, al + 1), v, al);
    HalfShift(v, al);
  }

  /** The correction of a coefficient that was nonzero, and the value of a new one. */
  lemma SharpValue(v: int, al: nat)
    ensures Shifted(v, al) > 1 ==>
      var x := Trunc(v, al + 1);
      Trunc(v, al) == if Shifted(v, al) % 2 == 0 then x else if x < 0 then x - Pow2(al) else x + Pow2(al)
    ensures Shifted(v, al) == 1 ==> Trunc(v, al) == if v < 0 then -(Pow2(al) as int) else Pow2(al)
  {
    hide Pow2, Shifted;
    var t, u := Shifted(v, al), Pow2(al);
    OlderIs(v, al);
    BetweenZero(Trunc(v, al + 1), v, al);
    if t > 1 {
      OneMoreUnit(t, u);
    }
  }

  lemma OneMoreUnit(t: int, u: int)
    ensures t % 2 == 1 ==> t * u == (t - t % 2) * u + u
  {
  }

  /** EOBx seen from the decoder's block: it agrees with the encoder's wherever it matters. */
  lemma EndxAgree(z: seq<int>, v: seq<int>, ss: nat, se: nat, al: nat, k: nat)
    requires |z| == |v| == 64 && 1 <= ss <= se < 64 && ss - 1 <= k
    requires forall j :: ss <= j <= se ==> z[j] == Trunc(v[j], al + 1)
    ensures k >= EndIndex(z, se) <==> k >= EndIndex(Transformed(v, al + 1), EndIndex(Transformed(v, al), se))
  {
    hide Pow2, Shifted, Trunc;
    var finer, coarser := Transformed(v, al), Transformed(v, al + 1);
    var ke := EndIndex(finer, se);
    var kex := EndIndex(coarser, ke);
    forall j | ss <= j <= se ensures z[j] == 0 <==> coarser[j] == 0 {
      OlderZero(v[j], al);
    }
    forall j | ke < j <= se ensures coarser[j] == 0 {
      OlderZero(v[j], al);
      assert finer[j] == 0;
    }
  }

  lemma RefineRunParts(t: nat, v: seq<int>, m: seq<nat>, j: nat, ke: nat, kex: nat, se: nat, rest: seq<Decision>)
    requires 0 < j <= ke <= se < |m| == |v| && m[ke] != 0
    ensures RefineRun(t, v, m, j, ke, kex, se) + rest ==
      if m[j] == 0 then [Decision(Ac(t, 3 * (j - 1) + 1), 0)] + (RefineRun(t, v, m, j + 1, ke, kex, se) + rest)
      else if m[j] > 1 then [Decision(Ac(t, 3 * (j - 1) + 2), m[j] % 2)] + (RefineTape(t, v, m, j, ke, kex, se) + rest)
      else [Decision(Ac(t, 3 * (j - 1) + 1), 1)] +
           ([Decision(Fixed, SignOf(v[j]))] + (RefineTape(t, v, m, j, ke, kex, se) + rest))
  {
    hide RefineTape;
  }

  lemma RefineTapeParts(t: nat, v: seq<int>, m: seq<nat>, k: nat, ke: nat, kex: nat, se: nat, rest: seq<Decision>)
    requires ke <= se < |m| == |v| && (ke > 0 ==> m[ke] != 0)
    ensures RefineTape(t, v, m, k, ke, kex, se) + rest ==
      if k < ke then
        (if k >= kex then [Decision(Ac(t, 3 * k), 0)] else []) + (RefineRun(t, v, m, k + 1, ke, kex, se) + rest)
      else if k < se then [Decision(Ac(t, 3 * k), 1)] + rest
      else rest
  {
    hide RefineRun;
  }

  /** One coefficient that is or becomes nonzero, after any number of zeros. */
  method RefineNextCoef(a: Asker, t: nat, block: array<int>, order: seq<nat>, start: nat, ghost ss: nat, se: nat,
                        al: nat, ghost v: seq<int>, ghost z0: seq<int>, ghost ke: nat, ghost kex: nat,
                        ghost rest: seq<Decision>)
    returns (ok: bool, k: nat)
    requires a.Valid() && block.Length == 64 && IsZigzag(order) && 1 <= ss <= start + 1 && start < ke <= se < 64 == |v|
    requires Magnitudes(v, al)[ke] != 0 && Sharpened(Zigzag(block[..], order), z0, v, ss, se, al, start + 1)
    requires a.Ahead() == RefineRun(t, v, Magnitudes(v, al), start + 1, ke, kex, se) + rest
    modifies a, a.d, block
    ensures ok && a.Valid() && start < k <= ke && Sharpened(Zigzag(block[..], order), z0, v, ss, se, al, k + 1)
    ensures a.Ahead() == RefineTape(t, v, Magnitudes(v, al), k, ke, kex, se) + rest
  {
    hide Pow2, Shifted, Trunc, Asker.Valid, Asker.Ahead, RefineTape, RefineRun, Zigzag, Sharpened, IsOrder;
    ghost var m := Magnitudes(v, al);
    k, ok := start, true;
    var st := 3 * start;
    while true
      invariant a.Valid() && start <= k < ke && st == 3 * k
      invariant Sharpened(Zigzag(block[..], order), z0, v, ss, se, al, k + 1)
      invariant a.Ahead() == RefineRun(t, v, m, k + 1, ke, kex, se) + rest
      decreases ke - k
    {
      k := k + 1;
      RefineRunParts(t, v, m, k, ke, kex, se, rest);
      SharpValue(v[k], al);
      SharpAt(Zigzag(block[..], order), z0, v, ss, se, al, k);
      var pos := At(order, k);
      if block[pos] != 0 {
        var bit := a.Ask(Ac(t, st + 2), RefineTape(t, v, m, k, ke, kex, se) + rest);
        var x: int := block[pos];
        if bit != 0 {
          x := if x < 0 then x - Pow2(al) else x + Pow2(al);
        }
        SetCoef(block, order, k, x, z0, v, ss, se, al);
        break;
      }
      var grown := a.Ask(Ac(t, st + 1),
        if m[k] == 0 then RefineRun(t, v, m, k + 1, ke, kex, se) + rest
        else [Decision(Fixed, SignOf(v[k]))] + (RefineTape(t, v, m, k, ke, kex, se) + rest));
      if grown != 0 {
        var sign := a.Ask(Fixed, RefineTape(t, v, m, k, ke, kex, se) + rest);
        var p1: int := Pow2(al);
        SetCoef(block, order, k, if sign != 0 then -p1 else p1, z0, v, ss, se, al);
        break;
      }
      SharpenZeros(Zigzag(block[..], order), z0, v, ss, se, al, k, k + 1);
      st := st + 3;
      if k >= se {
        return false, k;
      }
    }
  }

  method At(order: seq<nat>, k: nat) returns (pos: nat)
    requires IsOrder(order) && k < 64
    ensures pos < 64 && k < |order| && pos == order[k]
  {
    pos := order[k];
  }

  lemma SharpAt(z: seq<int>, z0: seq<int>, v: seq<int>, ss: nat, se: nat, al: nat, k: nat)
    requires Sharpened(z, z0, v, ss, se, al, k) && ss <= k <= se < 64
    ensures |z| == |v| == 64 && z[k] == Trunc(v[k], al + 1) && (z[k] != 0 <==> Shifted(v[k], al) > 1)
  {
    hide Trunc, Shifted;
    OlderZero(v[k], al);
  }

  method SetCoef(block: array<int>, order: seq<nat>, k: nat, x: int, ghost z0: seq<int>, ghost v: seq<int>,
                 ghost ss: nat, ghost se: nat, ghost al: nat)
    requires block.Length == 64 && IsZigzag(order) && ss <= k <= se < 64 == |v| && x == Trunc(v[k], al)
    requires Sharpened(Zigzag(block[..], order), z0, v, ss, se, al, k)
    modifies block
    ensures Sharpened(Zigzag(block[..], order), z0, v, ss, se, al, k + 1)
  {
    hide Trunc, Zigzag, Sharpened;
    SharpenOne(Zigzag(block[..], order), z0, v, ss, se, al, k);
    ZigzagUpdate(block[..], order, k, x);
    ghost var was := block[..];
    block[order[k]] := x;
    assert block[..] == was[order[k] := x];
  }

  method LastNonzero(block: array<int>, order: seq<nat>, se: nat) returns (kex: nat)
    requires block.Length == 64 && IsZigzag(order) && 0 < se < 64
    ensures kex == EndIndex(Zigzag(block[..], order), se)
  {
    ghost var z := Zigzag(block[..], order);
    kex := se;
    while true
      invariant 0 < kex <= se && EndIndex(z, se) == EndIndex(z, kex)
      decreases kex
    {
      if block[order[kex]] != 0 {
        break;
      }
      kex := kex - 1;
      if kex == 0 {
        break;
      }
    }
  }

  lemma RestZero(v: seq<int>, al: nat, k: nat, se: nat)
    requires se < |v| == 64 && k >= EndIndex(Transformed(v, al), se)
    ensures forall j :: k < j <= se ==> Shifted(v[j], al) == 0
  {
    hide Shifted;
    forall j | k < j <= se ensures Shifted(v[j], al) == 0 {
      assert Transformed(v, al)[j] == 0;
    }
  }

  /** decode_mcu_AC_refine. */
  method DecodeAcRefine(a: Asker, t: nat, block: array<int>, order: seq<nat>, ss: nat, se: nat, al: nat,
                        ghost v: seq<int>, ghost rest: seq<Decision>)
    returns (ok: bool)
    requires a.Valid() && block.Length == 64 && IsZigzag(order) && 1 <= ss <= se < 64 == |v|
    requires Sharpened(Zigzag(block[..], order), Zigzag(block[..], order), v, ss, se, al, ss)
    requires var ke := EndIndex(Transformed(v, al), se);
      (ke > 0 ==> Magnitudes(v, al)[ke] != 0) &&
      a.Ahead() == RefineTape(t, v, Magnitudes(v, al), ss - 1, ke, EndIndex(Transformed(v, al + 1), ke), se) + rest
    modifies a, a.d, block
    ensures ok && a.Valid() && a.Ahead() == rest
    ensures Sharpened(Zigzag(block[..], order), old(Zigzag(block[..], order)), v, ss, se, al, se + 1)
  {
    hide Pow2, Shifted, Trunc, Asker.Valid, Asker.Ahead, RefineTape, RefineRun, Zigzag, EndIndex, IsOrder;
    ghost var m, ke := Magnitudes(v, al), EndIndex(Transformed(v, al), se);
    ghost var kex0, z0 := EndIndex(Transformed(v, al + 1), ke), Zigzag(block[..], order);
    var kex := LastNonzero(block, order, se);
    ok := true;
    var k := ss - 1;
    while k < se
      invariant ss - 1 <= k <= se && (k <= ke || k == ss - 1) && a.Valid()
      invariant a.Ahead() == RefineTape(t, v, m, k, ke, kex0, se) + rest
      invariant Sharpened(Zigzag(block[..], order), z0, v, ss, se, al, k + 1)
      decreases se - k
    {
      RefineTapeParts(t, v, m, k, ke, kex0, se, rest);
      EndxAgree(z0, v, ss, se, al, k);
      if k >= kex {
        var eob := a.Ask(Ac(t, 3 * k), if k < ke then RefineRun(t, v, m, k + 1, ke, kex0, se) + rest else rest);
        if eob != 0 {
          break;
        }
      }
      ok, k := RefineNextCoef(a, t, block, order, k, ss, se, al, v, z0, ke, kex0, rest);
      if !ok {
        return;
      }
    }
    if k < se {
      RestZero(v, al, k, se);
      SharpenZeros(Zigzag(block[..], order), z0, v, ss, se, al, k + 1, se + 1);
    } else {
      RefineTapeParts(t, v, m, k, ke, kex0, se, rest);
    }
  }
}
