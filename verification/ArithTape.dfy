/** The binary decisions by which the arithmetic coder codes coefficients (sections F.1.4 and
    G.1.3 of ITU-T T.81): which statistics bin is asked, and for which bit. */
module ArithTape {
  import opened Numbers
  import opened IntervalCoder
  import opened Values

  function SignOf(x: int): (s: nat)
    ensures s <= 1
  {
    if x < 0 then 1 else 0
  }

  /** A bin of a DC or AC statistics area. */
  function AreaBin(dc: bool, t: nat, index: nat): Bin {
    if dc then Dc(t, index) else Ac(t, index)
  }

  /** Magnitude category: ones up to category n, one bin each, and a zero. */
  function Category(dc: bool, t: nat, x: nat, i: nat, n: nat): seq<Decision>
    decreases n - i
  {
    if i >= n then [Decision(AreaBin(dc, t, x + i), 0)]
    else [Decision(AreaBin(dc, t, x + i), 1)] + Category(dc, t, x, i + 1, n)
  }

  /** The low n bits of v, all through one bin. */
  function MagnitudeBits(bin: Bin, v: nat, n: nat): seq<Decision> {
    if n == 0 then [] else [Decision(bin, BitAt(v, n - 1))] + MagnitudeBits(bin, v, n - 1)
  }

  function BitAt(v: nat, i: nat): (b: int)
    ensures 0 <= b <= 1
  {
    v / Pow2(i) % 2
  }

  // DC -------------------------------------------------------------------------------------

  const DC_X1 := 20

  /** Figures F.4, F.6 to F.9. */
  function DcTape(t: nat, context: nat, diff: int): seq<Decision> {
    if diff == 0 then [Decision(Dc(t, context), 0)]
    else
      var v, s := Abs(diff) - 1, context + 2 + SignOf(diff);
      [Decision(Dc(t, context), 1), Decision(Dc(t, context + 1), SignOf(diff))] +
      if v == 0 then [Decision(Dc(t, s), 0)]
      else [Decision(Dc(t, s), 1)] + (Category(true, t, DC_X1, 0, Log2(v)) +
           MagnitudeBits(Dc(t, DC_X1 + 14 + Log2(v)), v, Log2(v)))
  }

  /** The tape of a nonzero difference of magnitude w + 1, after its sign. */
  ghost function DcTail(t: nat, s: nat, w: nat): seq<Decision> {
    if w == 0 then [Decision(Dc(t, s), 0)]
    else [Decision(Dc(t, s), 1)] + (Category(true, t, DC_X1, 0, Log2(w)) +
         MagnitudeBits(Dc(t, DC_X1 + 14 + Log2(w)), w, Log2(w)))
  }

  lemma DcParts(t: nat, context: nat, diff: int, rest: seq<Decision>)
    ensures DcTape(t, context, diff) + rest ==
      if diff == 0 then [Decision(Dc(t, context), 0)] + rest
      else [Decision(Dc(t, context), 1)] + ([Decision(Dc(t, context + 1), SignOf(diff))] +
           (DcTail(t, context + 2 + SignOf(diff), Abs(diff) - 1) + rest))
  {
    hide Log2, Category, MagnitudeBits;
  }

  lemma DcIs(t: nat, context: nat, diff: int)
    ensures DcTape(t, context, diff) ==
      if diff == 0 then [Decision(Dc(t, context), 0)]
      else [Decision(Dc(t, context), 1), Decision(Dc(t, context + 1), SignOf(diff))] +
           DcTail(t, context + 2 + SignOf(diff), Abs(diff) - 1)
  {
    hide Log2, Category, MagnitudeBits;
  }

  /** The conditioning category a difference leaves: zero, small or large, and its sign. */
  function NextContext(diff: int, lower: nat, upper: nat): (c: nat)
    ensures c == 0 || c == 4 || c == 8 || c == 12 || c == 16
  {
    if diff == 0 then 0
    else
      var m := if Abs(diff) == 1 then 0 else Pow2(Log2(Abs(diff) - 1));
      if m < Pow2(lower) / 2 then 0 else if m > Pow2(upper) / 2 then 12 + 4 * SignOf(diff) else 4 + 4 * SignOf(diff)
  }

  // AC -------------------------------------------------------------------------------------

  function AcX(k: nat, kx: int): nat { if k <= kx then 189 else 217 }

  /** A nonzero coefficient at position k: sign, category, magnitude. */
  function ValueTape(t: nat, k: nat, kx: int, x: int): seq<Decision>
    requires k > 0 && x != 0
  {
    var v, s := Abs(x) - 1, 3 * (k - 1) + 2;
    [Decision(Fixed, SignOf(x))] +
    if v == 0 then [Decision(Ac(t, s), 0)]
    else if v == 1 then [Decision(Ac(t, s), 1), Decision(Ac(t, s), 0)]
    else
      LogPositive(v);
      [Decision(Ac(t, s), 1), Decision(Ac(t, s), 1)] + (Category(false, t, AcX(k, kx), 0, Log2(v) - 1) +
      MagnitudeBits(Ac(t, AcX(k, kx) + 13 + Log2(v)), v, Log2(v)))
  }

  lemma LogPositive(v: nat)
    requires v > 1
    ensures Log2(v) > 0
  {
  }

  /** The tape of a value of magnitude v + 1 at position k, after its sign. */
  ghost function AcTail(t: nat, k: nat, kx: int, v: nat): seq<Decision>
    requires k > 0
  {
    var s := 3 * (k - 1) + 2;
    if v == 0 then [Decision(Ac(t, s), 0)]
    else if v == 1 then [Decision(Ac(t, s), 1), Decision(Ac(t, s), 0)]
    else [Decision(Ac(t, s), 1), Decision(Ac(t, s), 1)] + AcDeep(t, k, kx, v)
  }

  /** Category and magnitude bits of a value of magnitude at least 3. */
  ghost function AcDeep(t: nat, k: nat, kx: int, v: nat): seq<Decision>
    requires v > 1
  {
    LogPositive(v);
    Category(false, t, AcX(k, kx), 0, Log2(v) - 1) + MagnitudeBits(Ac(t, AcX(k, kx) + 13 + Log2(v)), v, Log2(v))
  }

  lemma ValueParts(t: nat, k: nat, kx: int, x: int, rest: seq<Decision>)
    requires k > 0 && x != 0
    ensures ValueTape(t, k, kx, x) + rest == [Decision(Fixed, SignOf(x))] + (AcTail(t, k, kx, Abs(x) - 1) + rest)
  {
    hide Log2, Category, MagnitudeBits;
  }

  lemma ValueIs(t: nat, k: nat, kx: int, x: int)
    requires k > 0 && x != 0
    ensures ValueTape(t, k, kx, x) == [Decision(Fixed, SignOf(x))] + AcTail(t, k, kx, Abs(x) - 1)
  {
    hide Log2, Category, MagnitudeBits;
  }

  /** The last nonzero position up to se, or 0. */
  function EndIndex(z: seq<int>, se: nat): (e: nat)
    requires se < |z|
    ensures e <= se && (e > 0 ==> z[e] != 0) && forall j :: e < j <= se ==> z[j] == 0
  {
    if se == 0 || z[se] != 0 then se else EndIndex(z, se - 1)
  }

  /** Figure F.5, from the end-of-block decision after coefficient k on. */
  function AcTape(t: nat, z: seq<int>, k: nat, ke: nat, kx: int, se: nat): seq<Decision>
    requires ke <= se < |z| && (ke > 0 ==> z[ke] != 0)
    decreases ke - k, 0
  {
    if k >= ke then if k < se then [Decision(Ac(t, 3 * k), 1)] else []
    else [Decision(Ac(t, 3 * k), 0)] + AcRun(t, z, k + 1, ke, kx, se)
  }

  /** Coefficient j is next: zeros up to a nonzero one. */
  function AcRun(t: nat, z: seq<int>, j: nat, ke: nat, kx: int, se: nat): seq<Decision>
    requires 0 < j <= ke <= se < |z| && z[ke] != 0
    decreases ke - j, 1
  {
    if z[j] == 0 then [Decision(Ac(t, 3 * (j - 1) + 1), 0)] + AcRun(t, z, j + 1, ke, kx, se)
    else [Decision(Ac(t, 3 * (j - 1) + 1), 1)] + (ValueTape(t, j, kx, z[j]) + AcTape(t, z, j, ke, kx, se))
  }

  // AC refinement ----------------------------------------------------------------------------

  /** Figure G.10: before the last coefficient that was nonzero already (kex) no end of block
      can come, so none is coded. */
  function RefineTape(t: nat, v: seq<int>, m: seq<nat>, k: nat, ke: nat, kex: nat, se: nat): seq<Decision>
    requires ke <= se < |m| == |v| && (ke > 0 ==> m[ke] != 0)
    decreases ke - k, 0
  {
    if k >= ke then if k < se then [Decision(Ac(t, 3 * k), 1)] else []
    else (if k >= kex then [Decision(Ac(t, 3 * k), 0)] else []) + RefineRun(t, v, m, k + 1, ke, kex, se)
  }

  function RefineRun(t: nat, v: seq<int>, m: seq<nat>, j: nat, ke: nat, kex: nat, se: nat): seq<Decision>
    requires 0 < j <= ke <= se < |m| == |v| && m[ke] != 0
    decreases ke - j, 1
  {
    if m[j] == 0 then [Decision(Ac(t, 3 * (j - 1) + 1), 0)] + RefineRun(t, v, m, j + 1, ke, kex, se)
    else if m[j] > 1 then [Decision(Ac(t, 3 * (j - 1) + 2), m[j] % 2)] + RefineTape(t, v, m, j, ke, kex, se)
    else [Decision(Ac(t, 3 * (j - 1) + 1), 1), Decision(Fixed, SignOf(v[j]))] + RefineTape(t, v, m, j, ke, kex, se)
  }

  // The statistics areas are never overrun -----------------------------------------------------

  ghost predicate InAreas(ds: seq<Decision>) {
    forall i :: 0 <= i < |ds| ==> BinInArea(ds[i].bin) && 0 <= ds[i].bit <= 1
  }

  predicate BinInArea(b: Bin) {
    match b
    case Dc(_, index) => index < 49
    case Ac(_, index) => index < 245
    case Fixed => true
  }

  lemma InAreasConcat(s: seq<Decision>, t: seq<Decision>)
    ensures InAreas(s) && InAreas(t) ==> InAreas(s + t)
  {
    hide BinInArea;
  }

  lemma {:induction false} CategoryInArea(dc: bool, t: nat, x: nat, i: nat, n: nat)
    requires i <= n && if dc then x + n < 49 else x + n < 245
    ensures InAreas(Category(dc, t, x, i, n))
    decreases n - i
  {
    if i < n {
      CategoryInArea(dc, t, x, i + 1, n);
      InAreasConcat([Decision(AreaBin(dc, t, x + i), 1)], Category(dc, t, x, i + 1, n));
    }
  }

  lemma {:induction false} MagnitudeInArea(bin: Bin, v: nat, n: nat)
    requires BinInArea(bin)
    ensures InAreas(MagnitudeBits(bin, v, n))
  {
    hide Pow2;
    if n > 0 {
      MagnitudeInArea(bin, v, n - 1);
      InAreasConcat([Decision(bin, BitAt(v, n - 1))], MagnitudeBits(bin, v, n - 1));
    }
  }

  /** Magnitudes up to 0x8000 have at most 15 categories. */
  lemma CategoryBound(v: nat)
    requires 0 < v < 0x8000
    ensures Log2(v) <= 14
  {
    Log2Bound(v);
  }

  lemma DcInArea(t: nat, context: nat, diff: int)
    requires context <= 16 && Abs(diff) <= 0x8000
    ensures InAreas(DcTape(t, context, diff))
  {
    hide Log2, Pow2;
    if diff != 0 && Abs(diff) > 1 {
      var v, s := Abs(diff) - 1, context + 2 + SignOf(diff);
      CategoryBound(v);
      CategoryInArea(true, t, DC_X1, 0, Log2(v));
      MagnitudeInArea(Dc(t, DC_X1 + 14 + Log2(v)), v, Log2(v));
      InAreasConcat(Category(true, t, DC_X1, 0, Log2(v)), MagnitudeBits(Dc(t, DC_X1 + 14 + Log2(v)), v, Log2(v)));
      InAreasConcat([Decision(Dc(t, s), 1)],
        Category(true, t, DC_X1, 0, Log2(v)) + MagnitudeBits(Dc(t, DC_X1 + 14 + Log2(v)), v, Log2(v)));
    }
  }

  lemma ValueInArea(t: nat, k: nat, kx: int, x: int)
    requires 0 < k < 64 && x != 0 && Abs(x) <= 0x8000
    ensures InAreas(ValueTape(t, k, kx, x))
  {
    hide Log2, Pow2;
    var v, s := Abs(x) - 1, 3 * (k - 1) + 2;
    if v > 1 {
      CategoryBound(v);
      LogPositive(v);
      var a := Category(false, t, AcX(k, kx), 0, Log2(v) - 1);
      var b := MagnitudeBits(Ac(t, AcX(k, kx) + 13 + Log2(v)), v, Log2(v));
      CategoryInArea(false, t, AcX(k, kx), 0, Log2(v) - 1);
      MagnitudeInArea(Ac(t, AcX(k, kx) + 13 + Log2(v)), v, Log2(v));
      InAreasConcat(a, b);
      InAreasConcat([Decision(Ac(t, s), 1), Decision(Ac(t, s), 1)], a + b);
    }
  }

  lemma OneDecision(bin: Bin, bit: int)
    ensures BinInArea(bin) && 0 <= bit <= 1 ==> InAreas([Decision(bin, bit)])
  {
  }

  lemma NoDecisions()
    ensures InAreas([])
  {
  }

  lemma {:induction false} AcInArea(t: nat, z: seq<int>, k: nat, ke: nat, kx: int, se: nat)
    requires ke <= se < 64 == |z| && (ke > 0 ==> z[ke] != 0) && forall j :: k < j <= ke ==> Abs(z[j]) <= 0x8000
    ensures k <= se ==> InAreas(AcTape(t, z, k, ke, kx, se))
    ensures 0 < k <= ke && Abs(z[k]) <= 0x8000 ==> InAreas(AcRun(t, z, k, ke, kx, se))
    decreases ke - k
  {
    hide ValueTape, InAreas;
    OneDecision(Ac(t, 3 * k), 0);
    OneDecision(Ac(t, 3 * k), 1);
    if k < ke {
      AcInArea(t, z, k + 1, ke, kx, se);
      InAreasConcat([Decision(Ac(t, 3 * k), 0)], AcRun(t, z, k + 1, ke, kx, se));
    }
    if k >= ke {
      NoDecisions();
    }
    if 0 < k <= ke && Abs(z[k]) <= 0x8000 {
      OneDecision(Ac(t, 3 * (k - 1) + 1), 0);
      OneDecision(Ac(t, 3 * (k - 1) + 1), 1);
      if z[k] == 0 {
        InAreasConcat([Decision(Ac(t, 3 * (k - 1) + 1), 0)], AcRun(t, z, k + 1, ke, kx, se));
      } else {
        ValueInArea(t, k, kx, z[k]);
        InAreasConcat(ValueTape(t, k, kx, z[k]), AcTape(t, z, k, ke, kx, se));
        InAreasConcat([Decision(Ac(t, 3 * (k - 1) + 1), 1)], ValueTape(t, k, kx, z[k]) + AcTape(t, z, k, ke, kx, se));
      }
    }
  }

  lemma {:induction false} RefineInArea(t: nat, v: seq<int>, m: seq<nat>, k: nat, ke: nat, kex: nat, se: nat)
    requires ke <= se < 64 == |m| == |v| && (ke > 0 ==> m[ke] != 0)
    ensures k <= se ==> InAreas(RefineTape(t, v, m, k, ke, kex, se))
    ensures 0 < k <= ke ==> InAreas(RefineRun(t, v, m, k, ke, kex, se))
    decreases ke - k
  {
    if k < ke {
      RefineInArea(t, v, m, k + 1, ke, kex, se);
      InAreasConcat(if k >= kex then [Decision(Ac(t, 3 * k), 0)] else [], RefineRun(t, v, m, k + 1, ke, kex, se));
    }
    if 0 < k <= ke {
      if m[k] == 0 {
        InAreasConcat([Decision(Ac(t, 3 * (k - 1) + 1), 0)], RefineRun(t, v, m, k + 1, ke, kex, se));
      } else if m[k] > 1 {
        InAreasConcat([Decision(Ac(t, 3 * (k - 1) + 2), m[k] % 2)], RefineTape(t, v, m, k, ke, kex, se));
      } else {
        InAreasConcat([Decision(Ac(t, 3 * (k - 1) + 1), 1), Decision(Fixed, SignOf(v[k]))],
                      RefineTape(t, v, m, k, ke, kex, se));
      }
    }
  }
}
