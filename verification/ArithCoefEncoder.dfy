/** The arithmetic encoder's coefficient routines: each codes exactly the decisions of its
    tape. */
module ArithCoefEncoder {
  import opened Numbers
  import opened IntervalCoder
  import opened Values
  import opened BandPlan
  import opened BandEncoder
  import opened SequentialEncoder
  import opened ArithTape
  import ArithEncoder

  lemma LogHalf(v: nat)
    requires v > 1
    ensures Log2(v) == Log2(v / 2) + 1
  {
  }

  lemma LogOne()
    ensures Log2(1) == 0 && Pow2(0) == 1
  {
  }

  lemma CategoryStep(dc: bool, t: nat, x: nat, i: nat, n: nat, done: seq<Decision>)
    requires i < n && done + Category(dc, t, x, i, n) == Category(dc, t, x, 0, n)
    ensures done + [Decision(AreaBin(dc, t, x + i), 1)] + Category(dc, t, x, i + 1, n) == Category(dc, t, x, 0, n)
  {
    assert done + ([Decision(AreaBin(dc, t, x + i), 1)] + Category(dc, t, x, i + 1, n)) ==
           done + [Decision(AreaBin(dc, t, x + i), 1)] + Category(dc, t, x, i + 1, n);
  }

  /** The loop of figure F.8, up to its final zero. */
  method Categories(e: ArithEncoder.Encoder, dc: bool, t: nat, x: nat, value: nat, m0: nat)
    returns (st: nat, m: nat, ghost done: seq<Decision>)
    requires e.Valid() && value > 0
    modifies e
    ensures e.Valid() && e.prior == old(e.prior) && e.coded == old(e.coded) + done
    ensures st == x + Log2(value) && m == m0 * Pow2(Log2(value))
    ensures done + [Decision(AreaBin(dc, t, st), 0)] == Category(dc, t, x, 0, Log2(value))
  {
    hide Log2, Pow2, ArithEncoder.Encoder.Valid;
    ghost var n := Log2(value);
    ghost var i: nat := 0;
    st, m, done := x, m0, [];
    var v2 := value;
    assert [] + Category(dc, t, x, 0, n) == Category(dc, t, x, 0, n);
    LogOne();
    while v2 > 1
      invariant v2 > 0 && i <= n && n == i + Log2(v2) && st == x + i && m == m0 * Pow2(i)
      invariant e.Valid() && e.prior == old(e.prior) && e.coded == old(e.coded) + done
      invariant done + Category(dc, t, x, i, n) == Category(dc, t, x, 0, n)
      decreases v2
    {
      LogHalf(v2);
      CategoryStep(dc, t, x, i, n, done);
      PowNext(m0, i);
      v2 := v2 / 2;
      e.Encode(AreaBin(dc, t, st), 1);
      done := done + [Decision(AreaBin(dc, t, st), 1)];
      m := m * 2;
      st := st + 1;
      i := i + 1;
    }
  }

  lemma PowNext(m0: nat, i: nat)
    ensures m0 * Pow2(i) * 2 == m0 * Pow2(i + 1)
  {
    MulAssoc(m0, Pow2(i), 2);
  }

  /** Figure F.9: the bits below the leading one. */
  method Magnitude(e: ArithEncoder.Encoder, bin: Bin, v: nat, m0: nat, ghost n: nat)
    requires e.Valid() && (m0 == 0 || m0 == Pow2(n))
    modifies e
    ensures e.Valid() && e.prior == old(e.prior)
    ensures e.coded == old(e.coded) + if m0 == 0 then [] else MagnitudeBits(bin, v, n)
  {
    hide Pow2, ArithEncoder.Encoder.Valid;
    var m := m0 / 2;
    ghost var i, done := n, [];
    if m0 == 0 {
      return;
    }
    HalfPower(n);
    assert [] + MagnitudeBits(bin, v, n) == MagnitudeBits(bin, v, n);
    while m > 0
      invariant e.Valid() && e.prior == old(e.prior) && e.coded == old(e.coded) + done
      invariant m == (if i == 0 then 0 else Pow2(i - 1)) && done + MagnitudeBits(bin, v, i) == MagnitudeBits(bin, v, n)
      decreases i
    {
      e.Encode(bin, v / m % 2);
      assert done + MagnitudeBits(bin, v, i) == done + [Decision(bin, BitAt(v, i - 1))] + MagnitudeBits(bin, v, i - 1);
      done := done + [Decision(bin, BitAt(v, i - 1))];
      i := i - 1;
      HalfPower(i);
      m := m / 2;
    }
  }

  lemma HalfPower(n: nat)
    ensures Pow2(n) / 2 == if n == 0 then 0 else Pow2(n - 1)
  {
  }

  /** Category and magnitude of a DC difference whose magnitude is v + 1. */
  method EncodeDcMagnitude(e: ArithEncoder.Encoder, t: nat, s: nat, v: nat) returns (m: nat)
    requires e.Valid()
    modifies e
    ensures e.Valid() && e.prior == old(e.prior) && m == if v == 0 then 0 else Pow2(Log2(v))
    ensures e.coded == old(e.coded) + DcTail(t, s, v)
  {
    hide Log2, Pow2, ArithEncoder.Encoder.Valid, Category, MagnitudeBits;
    var st := s;
    m := 0;
    ghost var n, ones := 0, [];
    if v != 0 {
      n := Log2(v);
      e.Encode(Dc(t, st), 1);
      st, m, ones := Categories(e, true, t, DC_X1, v, 1);
    }
    e.Encode(Dc(t, st), 0);
    st := st + 14;
    Magnitude(e, Dc(t, st), v, m, n);
    if v != 0 {
      Regroup(old(e.coded), [Decision(Dc(t, s), 1)], ones, [Decision(Dc(t, st - 14), 0)],
              MagnitudeBits(Dc(t, st), v, n));
    }
  }

  lemma Regroup(all: seq<Decision>, a: seq<Decision>, b: seq<Decision>, c: seq<Decision>, d: seq<Decision>)
    ensures all + a + b + c + d == all + (a + (b + c + d))
  {
  }

  /** Encode_DC_DIFF, and the conditioning category for the next block of the component. */
  method EncodeDc(e: ArithEncoder.Encoder, t: nat, context: nat, diff: int, lower: nat, upper: nat) returns (next: nat)
    requires e.Valid()
    modifies e
    ensures e.Valid() && e.prior == old(e.prior) && e.coded == old(e.coded) + DcTape(t, context, diff)
    ensures next == NextContext(diff, lower, upper)
  {
    hide Log2, Pow2, ArithEncoder.Encoder.Valid, DcTape, DcTail;
    DcIs(t, context, diff);
    var st, v := context, diff;
    if v == 0 {
      e.Encode(Dc(t, st), 0);
      return 0;
    }
    e.Encode(Dc(t, st), 1);
    if v > 0 {
      e.Encode(Dc(t, st + 1), 0);
      st := st + 2;
      next := 4;
    } else {
      v := -v;
      e.Encode(Dc(t, st + 1), 1);
      st := st + 3;
      next := 8;
    }
    v := v - 1;
    assert e.coded == old(e.coded) + [Decision(Dc(t, context), 1), Decision(Dc(t, context + 1), SignOf(diff))];
    Chain(old(e.coded), [Decision(Dc(t, context), 1), Decision(Dc(t, context + 1), SignOf(diff))], DcTail(t, st, v));
    var m := EncodeDcMagnitude(e, t, st, v);
    if m < Pow2(lower) / 2 {
      next := 0;
    } else if m > Pow2(upper) / 2 {
      next := next + 8;
    }
  }

  /** A nonzero AC coefficient at position k. */
  method EncodeValue(e: ArithEncoder.Encoder, t: nat, k: nat, kx: int, x: int)
    requires e.Valid() && k > 0 && x != 0
    modifies e
    ensures e.Valid() && e.prior == old(e.prior) && e.coded == old(e.coded) + ValueTape(t, k, kx, x)
  {
    hide Log2, Pow2, ArithEncoder.Encoder.Valid, ValueTape, AcTail;
    ValueIs(t, k, kx, x);
    Chain(e.coded, [Decision(Fixed, SignOf(x))], AcTail(t, k, kx, Abs(x) - 1));
    var v := x;
    if v > 0 {
      e.Encode(Fixed, 0);
    } else {
      v := -v;
      e.Encode(Fixed, 1);
    }
    EncodeAcMagnitude(e, t, k, kx, v - 1);
  }

  method EncodeAcMagnitude(e: ArithEncoder.Encoder, t: nat, k: nat, kx: int, v: nat)
    requires e.Valid() && k > 0
    modifies e
    ensures e.Valid() && e.prior == old(e.prior) && e.coded == old(e.coded) + AcTail(t, k, kx, v)
  {
    hide ArithEncoder.Encoder.Valid, AcDeep;
    var st := 3 * (k - 1) + 2;
    if v == 0 {
      e.Encode(Ac(t, st), 0);
    } else {
      e.Encode(Ac(t, st), 1);
      if v == 1 {
        e.Encode(Ac(t, st), 0);
      } else {
        e.Encode(Ac(t, st), 1);
        assert e.coded == old(e.coded) + [Decision(Ac(t, st), 1), Decision(Ac(t, st), 1)];
        Chain(old(e.coded), [Decision(Ac(t, st), 1), Decision(Ac(t, st), 1)], AcDeep(t, k, kx, v));
        EncodeDeep(e, t, k, kx, v);
      }
    }
  }

  /** The further categories, and the magnitude bits. */
  method EncodeDeep(e: ArithEncoder.Encoder, t: nat, k: nat, kx: int, v: nat)
    requires e.Valid() && v > 1
    modifies e
    ensures e.Valid() && e.prior == old(e.prior) && e.coded == old(e.coded) + AcDeep(t, k, kx, v)
  {
    hide Log2, Pow2, ArithEncoder.Encoder.Valid, Category, MagnitudeBits;
    LogHalf(v);
    LogPositive(v);
    ghost var n := Log2(v);
    PowTwice(n - 1);
    var st, m;
    ghost var ones;
    st, m, ones := Categories(e, false, t, if k <= kx then 189 else 217, v / 2, 2);
    e.Encode(Ac(t, st), 0);
    st := st + 14;
    Magnitude(e, Ac(t, st), v, m, n);
    Regroup(old(e.coded), [], ones, [Decision(Ac(t, st - 14), 0)], MagnitudeBits(Ac(t, st), v, n));
    assert old(e.coded) + [] == old(e.coded);
  }

  lemma PowTwice(i: nat)
    ensures 2 * Pow2(i) == Pow2(i + 1)
  {
  }

  // AC scans --------------------------------------------------------------------------------

  /** Coefficients after the point transform: shifted toward zero. */
  function Transformed(v: seq<int>, al: nat): (z: seq<int>)
    ensures |z| == |v| && forall k :: 0 <= k < |v| ==> z[k] == TransformedCoef(v[k], al)
  {
    seq(|v|, k requires 0 <= k < |v| => TransformedCoef(v[k], al))
  }

  function TransformedCoef(x: int, al: nat): (z: int)
    ensures Abs(z) == Shifted(x, al) && (z != 0 ==> (z < 0 <==> x < 0))
  {
    var t: int := Shifted(x, al);
    if x < 0 then -t else t
  }

  /** The end-of-block index: the last coefficient that is nonzero after the transform. */
  method FindEnd(block: seq<int>, order: seq<nat>, se: nat, al: nat) returns (ke: nat)
    requires |block| == 64 && IsZigzag(order) && 0 < se < 64
    ensures ke == EndIndex(Transformed(Zigzag(block, order), al), se)
  {
    hide Pow2;
    ghost var z := Transformed(Zigzag(block, order), al);
    ke := se;
    while true
      invariant 0 < ke <= se && EndIndex(z, se) == EndIndex(z, ke)
      decreases ke
    {
      var v := block[order[ke]];
      if v < 0 {
        v := -v;
      }
      ShiftNonnegative(v, Pow2(al));
      if v / Pow2(al) != 0 {
        break;
      }
      ke := ke - 1;
      if ke == 0 {
        break;
      }
    }
  }

  /** Figure F.5 over a band (the whole block in a sequential scan). */
  method EncodeAc(e: ArithEncoder.Encoder, t: nat, block: seq<int>, order: seq<nat>, ss: nat, se: nat, al: nat, kx: int)
    requires e.Valid() && |block| == 64 && IsZigzag(order) && 1 <= ss <= se < 64
    modifies e
    ensures e.Valid() && e.prior == old(e.prior)
    ensures var z := Transformed(Zigzag(block, order), al);
      e.coded == old(e.coded) + AcTape(t, z, ss - 1, EndIndex(z, se), kx, se)
  {
    hide Pow2, ArithEncoder.Encoder.Valid, ValueTape, EndIndex, AcTape, AcRun, Transformed, Zigzag;
    ghost var z := Transformed(Zigzag(block, order), al);
    var ke := FindEnd(block, order, se, al);
    var k := ss - 1;
    ghost var all, done := AcTape(t, z, k, ke, kx, se), [];
    assert [] + all == all;
    while k < ke
      invariant ss - 1 <= k && (k <= ke || k == ss - 1) && e.Valid() && e.prior == old(e.prior)
      invariant e.coded == old(e.coded) + done && done + AcTape(t, z, k, ke, kx, se) == all
      decreases ke - k
    {
      var st := 3 * k;
      e.Encode(Ac(t, st), 0);
      StartOfRun(t, z, k, ke, kx, se);
      Chain(done, [Decision(Ac(t, st), 0)], AcRun(t, z, k + 1, ke, kx, se));
      done := done + [Decision(Ac(t, st), 0)];
      var v := 0;
      k, st, v, done := EncodeZeros(e, t, block, order, al, kx, k, ke, se, done, all, old(e.coded));
      e.Encode(Ac(t, st + 1), 1);
      EncodeValue(e, t, k, kx, v);
      Chain3(done, [Decision(Ac(t, st + 1), 1)], ValueTape(t, k, kx, v), AcTape(t, z, k, ke, kx, se));
      done := done + [Decision(Ac(t, st + 1), 1)] + ValueTape(t, k, kx, v);
    }
    if k < se {
      e.Encode(Ac(t, 3 * k), 1);
    }
    EndOfTape(t, z, k, ke, kx, se);
  }

  lemma StartOfRun(t: nat, z: seq<int>, k: nat, ke: nat, kx: int, se: nat)
    requires k < ke <= se < |z| && z[ke] != 0
    ensures AcTape(t, z, k, ke, kx, se) == [Decision(Ac(t, 3 * k), 0)] + AcRun(t, z, k + 1, ke, kx, se)
  {
    hide AcRun;
  }

  lemma EndOfTape(t: nat, z: seq<int>, k: nat, ke: nat, kx: int, se: nat)
    requires ke <= se < |z| && (ke > 0 ==> z[ke] != 0) && k >= ke
    ensures AcTape(t, z, k, ke, kx, se) == if k < se then [Decision(Ac(t, 3 * k), 1)] else []
  {
  }

  lemma Chain(done: seq<Decision>, a: seq<Decision>, rest: seq<Decision>)
    ensures done + (a + rest) == done + a + rest
  {
  }

  lemma Chain3(done: seq<Decision>, a: seq<Decision>, b: seq<Decision>, rest: seq<Decision>)
    ensures done + (a + (b + rest)) == done + a + b + rest
  {
  }

  /** The inner loop: zeros up to the next nonzero coefficient. */
  method EncodeZeros(e: ArithEncoder.Encoder, t: nat, block: seq<int>, order: seq<nat>, al: nat, ghost kx: int,
                     start: nat, ghost ke: nat, ghost se: nat, ghost before: seq<Decision>, ghost all: seq<Decision>,
                     ghost e0: seq<Decision>)
    returns (k: nat, st: nat, v: int, ghost done: seq<Decision>)
    requires e.Valid() && |block| == 64 && IsZigzag(order) && start < ke <= se < 64 && e.coded == e0 + before
    requires var z := Transformed(Zigzag(block, order), al);
      z[ke] != 0 && before + AcRun(t, z, start + 1, ke, kx, se) == all
    modifies e
    ensures e.Valid() && e.prior == old(e.prior) && e.coded == e0 + done
    ensures start < k <= ke && st == 3 * (k - 1)
    ensures var z := Transformed(Zigzag(block, order), al);
      v == z[k] != 0 &&
      done + ([Decision(Ac(t, st + 1), 1)] + (ValueTape(t, k, kx, v) + AcTape(t, z, k, ke, kx, se))) == all
  {
    hide Pow2, ArithEncoder.Encoder.Valid, ValueTape;
    ghost var z := Transformed(Zigzag(block, order), al);
    k, st, done := start + 1, 3 * start, before;
    v := PointTransform(block[order[k]], al);
    while v == 0
      invariant start < k <= ke && st == 3 * (k - 1) && v == z[k] && e.Valid() && e.prior == old(e.prior)
      invariant e.coded == e0 + done && done + AcRun(t, z, k, ke, kx, se) == all
      decreases ke - k
    {
      e.Encode(Ac(t, st + 1), 0);
      Chain(done, [Decision(Ac(t, st + 1), 0)], AcRun(t, z, k + 1, ke, kx, se));
      done := done + [Decision(Ac(t, st + 1), 0)];
      st := st + 3;
      k := k + 1;
      v := PointTransform(block[order[k]], al);
    }
  }

  /** The absolute value is shifted, the sign kept apart. */
  method PointTransform(x: int, al: nat) returns (z: int)
    ensures z == TransformedCoef(x, al)
  {
    hide Pow2;
    z := x;
    if z >= 0 {
      z := z / Pow2(al);
    } else {
      z := -z;
      z := z / Pow2(al);
      z := -z;
    }
  }

  // Refinement scans ---------------------------------------------------------------------------

  /** The end-of-block index of the previous stage: the last coefficient up to ke that was
      nonzero before, or 0. */
  method FindEndx(block: seq<int>, order: seq<nat>, ke: nat, ah: nat) returns (kex: nat)
    requires |block| == 64 && IsZigzag(order) && ke < 64
    ensures kex == EndIndex(Transformed(Zigzag(block, order), ah), ke)
  {
    hide Pow2;
    ghost var z := Transformed(Zigzag(block, order), ah);
    kex := ke;
    while kex > 0
      invariant kex <= ke && EndIndex(z, ke) == EndIndex(z, kex)
    {
      var v := block[order[kex]];
      if v < 0 {
        v := -v;
      }
      ShiftNonnegative(v, Pow2(ah));
      if v / Pow2(ah) != 0 {
        return;
      }
      kex := kex - 1;
    }
  }

  lemma EndMagnitude(v: seq<int>, al: nat, se: nat)
    requires se < |v|
    ensures var ke := EndIndex(Transformed(v, al), se); ke > 0 ==> Magnitudes(v, al)[ke] != 0
  {
    hide Pow2, Shifted;
  }

  /** Figure G.10. */
  method EncodeAcRefine(e: ArithEncoder.Encoder, t: nat, block: seq<int>, order: seq<nat>, ss: nat, se: nat, al: nat)
    requires e.Valid() && |block| == 64 && IsZigzag(order) && 1 <= ss <= se < 64
    modifies e
    ensures e.Valid() && e.prior == old(e.prior)
    ensures var v := Zigzag(block, order); var ke := EndIndex(Transformed(v, al), se);
      (ke > 0 ==> Magnitudes(v, al)[ke] != 0) &&
      e.coded == old(e.coded) +
                 RefineTape(t, v, Magnitudes(v, al), ss - 1, ke, EndIndex(Transformed(v, al + 1), ke), se)
  {
    hide Pow2, ArithEncoder.Encoder.Valid, EndIndex, Shifted;
    ghost var z := Zigzag(block, order);
    ghost var m := Magnitudes(z, al);
    var ke := FindEnd(block, order, se, al);
    EndMagnitude(z, al, se);
    var kex := FindEndx(block, order, ke, al + 1);
    var k := ss - 1;
    ghost var all, done := RefineTape(t, z, m, k, ke, kex, se), [];
    assert [] + all == all;
    while k < ke
      invariant ss - 1 <= k && (k <= ke || k == ss - 1) && e.Valid() && e.prior == old(e.prior)
      invariant e.coded == old(e.coded) + done && done + RefineTape(t, z, m, k, ke, kex, se) == all
      decreases ke - k
    {
      var st := 3 * k;
      ghost var eob := if k >= kex then [Decision(Ac(t, 3 * k), 0)] else [];
      if k >= kex {
        e.Encode(Ac(t, st), 0);
      }
      Chain(done, eob, RefineRun(t, z, m, k + 1, ke, kex, se));
      done := done + eob;
      k, done := EncodeRefineRun(e, t, block, order, al, k, ke, kex, se, done, all, old(e.coded));
    }
    if k < se {
      e.Encode(Ac(t, 3 * k), 1);
    }
    EndOfRefine(t, z, m, k, ke, kex, se);
  }

  lemma EndOfRefine(t: nat, v: seq<int>, m: seq<nat>, k: nat, ke: nat, kex: nat, se: nat)
    requires ke <= se < |m| == |v| && (ke > 0 ==> m[ke] != 0) && k >= ke
    ensures RefineTape(t, v, m, k, ke, kex, se) == if k < se then [Decision(Ac(t, 3 * k), 1)] else []
  {
  }

  /** Zeros, then one coefficient that is or becomes nonzero. */
  method EncodeRefineRun(e: ArithEncoder.Encoder, t: nat, block: seq<int>, order: seq<nat>, al: nat, start: nat,
                         ghost ke: nat, ghost kex: nat, ghost se: nat, ghost before: seq<Decision>,
                         ghost all: seq<Decision>, ghost e0: seq<Decision>)
    returns (k: nat, ghost done: seq<Decision>)
    requires e.Valid() && |block| == 64 && IsZigzag(order) && start < ke <= se < 64 && e.coded == e0 + before
    requires var v := Zigzag(block, order); var m := Magnitudes(v, al);
      m[ke] != 0 && before + RefineRun(t, v, m, start + 1, ke, kex, se) == all
    modifies e
    ensures e.Valid() && e.prior == old(e.prior) && e.coded == e0 + done && start < k <= ke
    ensures var v := Zigzag(block, order); done + RefineTape(t, v, Magnitudes(v, al), k, ke, kex, se) == all
  {
    hide Pow2, ArithEncoder.Encoder.Valid, Shifted, RefineTape, RefineRun, Zigzag;
    ghost var z := Zigzag(block, order);
    ghost var m := Magnitudes(z, al);
    k, done := start, before;
    var st := 3 * start;
    while true
      invariant start <= k < ke && st == 3 * k && e.Valid() && e.prior == old(e.prior)
      invariant e.coded == e0 + done && done + RefineRun(t, z, m, k + 1, ke, kex, se) == all
      decreases ke - k
    {
      k := k + 1;
      RefineRunIs(t, z, m, k, ke, kex, se);
      var x := block[order[k]];
      var v := AbsShifted(x, al);
      if v != 0 {
        if v / 2 != 0 {
          e.Encode(Ac(t, st + 2), v % 2);
          Chain(done, [Decision(Ac(t, st + 2), v % 2)], RefineTape(t, z, m, k, ke, kex, se));
          done := done + [Decision(Ac(t, st + 2), v % 2)];
        } else {
          e.Encode(Ac(t, st + 1), 1);
          e.Encode(Fixed, if x >= 0 then 0 else 1);
          Chain(done, [Decision(Ac(t, st + 1), 1), Decision(Fixed, SignOf(x))], RefineTape(t, z, m, k, ke, kex, se));
          done := done + [Decision(Ac(t, st + 1), 1), Decision(Fixed, SignOf(x))];
        }
        break;
      }
      e.Encode(Ac(t, st + 1), 0);
      Chain(done, [Decision(Ac(t, st + 1), 0)], RefineRun(t, z, m, k + 1, ke, kex, se));
      done := done + [Decision(Ac(t, st + 1), 0)];
      st := st + 3;
    }
  }

  lemma RefineRunIs(t: nat, v: seq<int>, m: seq<nat>, j: nat, ke: nat, kex: nat, se: nat)
    requires 0 < j <= ke <= se < |m| == |v| && m[ke] != 0
    ensures RefineRun(t, v, m, j, ke, kex, se) ==
      if m[j] == 0 then [Decision(Ac(t, 3 * (j - 1) + 1), 0)] + RefineRun(t, v, m, j + 1, ke, kex, se)
      else if m[j] > 1 then [Decision(Ac(t, 3 * (j - 1) + 2), m[j] % 2)] + RefineTape(t, v, m, j, ke, kex, se)
      else [Decision(Ac(t, 3 * (j - 1) + 1), 1), Decision(Fixed, SignOf(v[j]))] + RefineTape(t, v, m, j, ke, kex, se)
  {
    hide RefineTape;
  }

  method AbsShifted(x: int, al: nat) returns (v: nat)
    ensures v == Shifted(x, al)
  {
    hide Pow2;
    var y := if x < 0 then -x else x;
    ShiftNonnegative(y, Pow2(al));
    v := y / Pow2(al);
  }
}
