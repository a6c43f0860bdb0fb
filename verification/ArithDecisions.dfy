/** The decisions for a block one by one, as the figures and tables of sections D.1, F.1.4 and G.1.3 of
    ITU-T T.81 number them: which bin is asked at which place, and what the answer is. */
module ArithDecisions {
  import opened Numbers
  import opened ArithTable
  import opened IntervalCoder
  import opened Values
  import opened ArithTape
  import opened BandPlan
  import opened ArithCoefEncoder
  import ArithScan

  // The questions -----------------------------------------------------------------------------

  /** What is asked of a DC difference (under conditioning category c) and of an AC coefficient (at position k): whether
      its magnitude less one reaches the i'th power of two, and the bits of a number with i bits below its top bit. */
  datatype Question =
    | Nonzero(c: nat)
    | Negative(c: nat)
    | Large(c: nat, negative: bool)
    | Reaches(i: nat)
    | Bits(i: nat)
    | EndAfter(k: nat)
    | NonzeroAt(k: nat)
    | LargeAt(k: nat)
    | ReachesIn(low: bool, i: nat)
    | BitsIn(low: bool, i: nat)

  /** Tables F.4 and F.5: the bins of a DC area, and of an AC area. */
  function BinOf(q: Question): int {
    match q
    case Nonzero(c) => c
    case Negative(c) => c + 1
    case Large(c, negative) => if negative then c + 3 else c + 2
    case Reaches(i) => 20 + i
    case Bits(i) => 34 + i
    case EndAfter(k) => 3 * k
    case NonzeroAt(k) => 3 * k - 2
    case LargeAt(k) => 3 * k - 1
    case ReachesIn(low, i) => if low then 189 + i else 217 + i
    case BitsIn(low, i) => if low then 202 + i else 230 + i
  }

  predicate OfDc(q: Question) {
    q.Nonzero? || q.Negative? || q.Large? || q.Reaches? || q.Bits?
  }

  /** The questions that come up for differences and coefficients of up to 16 bits. */
  predicate Asked(q: Question) {
    match q
    case Nonzero(c) => c in {0, 4, 8, 12, 16}
    case Negative(c) => c in {0, 4, 8, 12, 16}
    case Large(c, _) => c in {0, 4, 8, 12, 16}
    case Reaches(i) => i <= 14
    case Bits(i) => 0 < i <= 14
    case EndAfter(k) => k < 63
    case NonzeroAt(k) => 0 < k < 64
    case LargeAt(k) => 0 < k < 64
    case ReachesIn(_, i) => i < 14
    case BitsIn(_, i) => 0 < i <= 14
  }

  /** Every question has its own bin, among the 49 or 245 of its area. */
  lemma OwnBin(q: Question, r: Question)
    requires Asked(q) && Asked(r) && OfDc(q) == OfDc(r)
    ensures BinOf(q) == BinOf(r) ==> q == r
    ensures 0 <= BinOf(q) < if OfDc(q) then 49 else 245
  {
  }

  // One decision --------------------------------------------------------------------------------

  /** The two parts tile the interval. The MPS has the larger, the lower one if they are equal; the
      lower part is what Qe leaves. */
  lemma ShareOut(iv: Interval, sv: int)
    requires 0x8000 <= iv.size && IsBin(sv)
    ensures var m, l := Narrow(iv, sv, Mps(sv)), Narrow(iv, sv, 1 - Mps(sv));
      var lower, upper := if m.low == iv.low then m else l, if m.low == iv.low then l else m;
      && lower == Interval(iv.low, iv.size - Qe(sv), iv.shifts)
      && upper == Interval(iv.low + lower.size, Qe(sv), iv.shifts)
      && m.size >= l.size && (m.size == l.size ==> m == lower)
  {
  }

  /** A bin is estimated anew exactly when its decision makes the interval need renormalization. */
  lemma EstimatedWhenShort(iv: Interval, stats: Stats, bin: Bin, bit: int)
    requires 0x8000 <= iv.size && IsBin(Fetch(stats, bin)) && 0 <= bit <= 1
    ensures var sv := Fetch(stats, bin);
      Adapt(iv, stats, bin, bit) ==
        if Narrow(iv, sv, bit).size < 0x8000 then stats[bin := Estimate(sv, bit != Mps(sv))] else stats
  {
    hide Estimate, Qe;
  }

  /** A bin never used before is in state 0 with sense 0, and the fixed one in state 113. */
  lemma FirstUse(bin: Bin)
    ensures Fetch(START.stats, bin) == if bin == Fixed then 113 else 0
  {
  }

  // DC --------------------------------------------------------------------------------------------

  lemma HalfOf(n: nat)
    ensures Pow2(n) / 2 == if n == 0 then 0 else Pow2(n - 1)
  {
  }

  /** Powers of two are apart by a factor of two. */
  lemma TopPower(v: nat, n: nat)
    requires v > 0
    ensures Pow2(Log2(v)) >= Pow2(n) <==> v >= Pow2(n)
  {
    if Log2(v) >= n {
      Pow2Monotonic(n, Log2(v));
    } else {
      Pow2Monotonic(Log2(v) + 1, n);
    }
  }

  lemma Doubles(m: nat, n: nat)
    requires n > 0
    ensures Pow2(m) > Pow2(n - 1) <==> Pow2(m) >= Pow2(n)
  {
    if m < n {
      Pow2Monotonic(m, n - 1);
    } else {
      Pow2Monotonic(n, m);
    }
  }

  /** The conditioning category (section F.1.4.4.1.2): zero up to half of 2^L, small up to 2^U, large
      beyond, with a bin for each sign. */
  lemma ContextIs(diff: int, lower: nat, upper: nat)
    ensures var c, size := NextContext(diff, lower, upper), Abs(diff);
      && (c == 0 <==> diff == 0 || (lower > 0 && size <= Pow2(lower - 1)))
      && (c != 0 ==> (c >= 12 <==> size > Pow2(upper)))
      && (c in {4, 12} ==> diff > 0) && (c in {8, 16} ==> diff < 0)
  {
    hide Log2;
    HalfOf(lower);
    HalfOf(upper);
    if Abs(diff) > 1 {
      var v := Abs(diff) - 1;
      if lower > 0 { TopPower(v, lower - 1); }
      TopPower(v, upper);
      if upper > 0 { Doubles(Log2(v), upper); }
    }
  }

  lemma {:induction false} CategoryAt(dc: bool, t: nat, x: nat, i: nat, n: nat, j: nat)
    requires i <= n && j <= n - i
    ensures |Category(dc, t, x, i, n)| == n - i + 1
    ensures Category(dc, t, x, i, n)[j] == Decision(AreaBin(dc, t, x + i + j), if j < n - i then 1 else 0)
    decreases n - i
  {
    if i < n {
      CategoryAt(dc, t, x, i + 1, n, if j > 0 then j - 1 else 0);
    }
  }

  lemma {:induction false} MagnitudeAt(bin: Bin, v: nat, n: nat, j: nat)
    requires j < n
    ensures |MagnitudeBits(bin, v, n)| == n
    ensures MagnitudeBits(bin, v, n)[j] == Decision(bin, v / Pow2(n - 1 - j) % 2)
  {
    if j > 0 {
      MagnitudeAt(bin, v, n - 1, j - 1);
    } else if n > 1 {
      MagnitudeAt(bin, v, n - 1, 0);
    }
  }

  /** Category decision i asks whether the power of two is reached. */
  lemma Reached(v: nat, i: nat)
    requires v > 0
    ensures v >= Pow2(i) <==> i <= Log2(v)
  {
    TopPower(v, i);
    if i <= Log2(v) {
      Pow2Monotonic(i, Log2(v));
    } else {
      Pow2Monotonic(Log2(v) + 1, i);
    }
  }

  /** The answer to a question in a DC or AC area. */
  function Answer(dc: bool, t: nat, q: Question, yes: bool): Decision
    requires BinOf(q) >= 0
  {
    Decision(AreaBin(dc, t, BinOf(q)), if yes then 1 else 0)
  }

  /** What is asked first of every difference. */
  lemma DcStarts(t: nat, context: nat, diff: int)
    ensures var tape := DcTape(t, context, diff);
      && |tape| >= 1 && tape[0] == Answer(true, t, Nonzero(context), diff != 0)
      && (if diff == 0 then |tape| == 1 else |tape| >= 3)
      && (diff != 0 ==> tape[1] == Answer(true, t, Negative(context), diff < 0))
      && (diff != 0 ==> tape[2] == Answer(true, t, Large(context, diff < 0), Abs(diff) > 1))
      && (Abs(diff) == 1 ==> |tape| == 3)
  {
    hide Log2, Category, MagnitudeBits;
  }

  lemma Third(a: seq<Decision>, b: seq<Decision>, c: seq<Decision>, i: nat)
    ensures |a + (b + c)| == |a| + |b| + |c|
    ensures i < |b| ==> (a + (b + c))[|a| + i] == b[i]
    ensures i < |c| ==> (a + (b + c))[|a| + |b| + i] == c[i]
  {
  }

  /** Category and magnitude decisions of v > 0, coded from its bit m on, behind others. */
  lemma PowersThenBits(head: seq<Decision>, dc: bool, t: nat, x: nat, bits: Bin, v: nat, m: nat, i: nat)
    requires v > 0 && m <= Log2(v)
    ensures var n := Log2(v);
      var tape := head + (Category(dc, t, x, 0, n - m) + MagnitudeBits(bits, v, n));
      && |tape| == |head| + 1 - m + 2 * n
      && (i <= n - m ==>
            tape[|head| + i] == Decision(AreaBin(dc, t, x + i), if v >= Pow2(i + m + 1) then 1 else 0))
      && (i < n ==> tape[|head| + n - m + 1 + i] == Decision(bits, v / Pow2(n - 1 - i) % 2))
  {
    hide Log2, Category, MagnitudeBits, AreaBin;
    var n := Log2(v);
    CategoryAt(dc, t, x, 0, n - m, if i <= n - m then i else 0);
    if n > 0 {
      MagnitudeAt(bits, v, n, if i < n then i else 0);
    } else {
      NoMagnitude(bits, v);
    }
    Reached(v, i + m + 1);
    Third(head, Category(dc, t, x, 0, n - m), MagnitudeBits(bits, v, n), i);
  }

  lemma NoMagnitude(bin: Bin, v: nat)
    ensures MagnitudeBits(bin, v, 0) == []
  {
  }

  lemma Shift(a: seq<Decision>, b: seq<Decision>, c: seq<Decision>)
    ensures a + (b + c) == a + b + c
  {
  }

  lemma DcHead(t: nat, context: nat, diff: int)
    requires Abs(diff) > 1
    ensures var v := Abs(diff) - 1;
      DcTape(t, context, diff) ==
        [Decision(Dc(t, context), 1), Decision(Dc(t, context + 1), SignOf(diff)),
         Decision(Dc(t, context + 2 + SignOf(diff)), 1)] +
        (Category(true, t, 20, 0, Log2(v)) + MagnitudeBits(Dc(t, 34 + Log2(v)), v, Log2(v)))
  {
    hide DcTape, Log2, Category, MagnitudeBits;
    DcIs(t, context, diff);
    var v := Abs(diff) - 1;
    Shift([Decision(Dc(t, context), 1), Decision(Dc(t, context + 1), SignOf(diff))],
          [Decision(Dc(t, context + 2 + SignOf(diff)), 1)],
          Category(true, t, 20, 0, Log2(v)) + MagnitudeBits(Dc(t, 34 + Log2(v)), v, Log2(v)));
  }

  /** The rest of a difference of magnitude v + 1, v having n bits below its top bit: whether v reaches 2, 4, ..., and
      then those n bits. */
  lemma DcGoesOn(t: nat, context: nat, diff: int, i: nat)
    requires Abs(diff) > 1
    ensures var tape, v := DcTape(t, context, diff), Abs(diff) - 1;
      var n := Log2(v);
      && |tape| == 4 + 2 * n
      && (i <= n ==> tape[3 + i] == Answer(true, t, Reaches(i), v >= Pow2(i + 1)))
      && (i < n ==> tape[4 + n + i] == Answer(true, t, Bits(n), v / Pow2(n - 1 - i) % 2 == 1))
  {
    hide DcTape, Log2, Category, MagnitudeBits;
    var v := Abs(diff) - 1;
    DcHead(t, context, diff);
    PowersThenBits([Decision(Dc(t, context), 1), Decision(Dc(t, context + 1), SignOf(diff)),
                    Decision(Dc(t, context + 2 + SignOf(diff)), 1)],
                   true, t, 20, Dc(t, 34 + Log2(v)), v, 0, i);
  }

  // AC --------------------------------------------------------------------------------------------

  lemma ValueHead(t: nat, k: nat, kx: int, x: int)
    requires k > 0 && Abs(x) > 2
    ensures var v, s, x1 := Abs(x) - 1, Ac(t, 3 * k - 1), if k <= kx then 189 else 217;
      && Log2(v) > 0
      && ValueTape(t, k, kx, x) ==
           [Decision(Fixed, SignOf(x)), Decision(s, 1), Decision(s, 1)] +
           (Category(false, t, x1, 0, Log2(v) - 1) + MagnitudeBits(Ac(t, x1 + 13 + Log2(v)), v, Log2(v)))
  {
    hide ValueTape, Log2, Category, MagnitudeBits;
    var v, s, x1 := Abs(x) - 1, Ac(t, 3 * k - 1), if k <= kx then 189 else 217;
    ValueIs(t, k, kx, x);
    LogPositive(v);
    Shift([Decision(Fixed, SignOf(x))], [Decision(s, 1), Decision(s, 1)],
          Category(false, t, x1, 0, Log2(v) - 1) + MagnitudeBits(Ac(t, x1 + 13 + Log2(v)), v, Log2(v)));
  }

  /** What is asked first of every nonzero coefficient: its sign, in the fixed bin, and whether its magnitude is over
      one, and over two. */
  lemma ValueStarts(t: nat, k: nat, kx: int, x: int)
    requires 0 < k < 64 && x != 0
    ensures var tape := ValueTape(t, k, kx, x);
      && |tape| >= 2 && tape[0] == Decision(Fixed, if x < 0 then 1 else 0)
      && tape[1] == Answer(false, t, LargeAt(k), Abs(x) > 1)
      && (Abs(x) == 1 ==> |tape| == 2)
      && (Abs(x) > 1 ==> |tape| >= 3 && tape[2] == Answer(false, t, LargeAt(k), Abs(x) > 2))
      && (Abs(x) == 2 ==> |tape| == 3)
  {
    hide ValueTape, Log2, Category, MagnitudeBits;
    if Abs(x) > 2 {
      ValueHead(t, k, kx, x);
    } else {
      ValueIs(t, k, kx, x);
    }
  }

  /** The rest of a coefficient of magnitude v + 1, v having n bits below its top bit, up to or above the conditioning
      position: whether v reaches 4, 8, ..., and then those n bits. */
  lemma ValueGoesOn(t: nat, k: nat, kx: int, x: int, i: nat)
    requires 0 < k < 64 && Abs(x) > 2
    ensures var tape, v := ValueTape(t, k, kx, x), Abs(x) - 1;
      var n := Log2(v);
      && n > 0 && |tape| == 3 + 2 * n
      && (i < n ==> tape[3 + i] == Answer(false, t, ReachesIn(k <= kx, i), v >= Pow2(i + 2)))
      && (i < n ==> tape[3 + n + i] == Answer(false, t, BitsIn(k <= kx, n), v / Pow2(n - 1 - i) % 2 == 1))
  {
    hide ValueTape, Log2, Category, MagnitudeBits;
    var v, s, x1 := Abs(x) - 1, Ac(t, 3 * k - 1), if k <= kx then 189 else 217;
    ValueHead(t, k, kx, x);
    PowersThenBits([Decision(Fixed, SignOf(x)), Decision(s, 1), Decision(s, 1)], false, t, x1,
                   Ac(t, x1 + 13 + Log2(v)), v, 1, i);
  }

  // AC, coefficient by coefficient ---------------------------------------------------------------

  /** Before position j it may be asked whether the block ends. */
  ghost function AskEnd(t: nat, asked: bool, j: nat): seq<Decision>
    requires j > 0
  {
    if asked then [Answer(false, t, EndAfter(j - 1), false)] else []
  }

  ghost function Coefficient(t: nat, z: seq<int>, kx: int, j: nat): seq<Decision>
    requires 0 < j < |z|
  {
    [Answer(false, t, NonzeroAt(j), z[j] != 0)] + if z[j] != 0 then ValueTape(t, j, kx, z[j]) else []
  }

  /** Everything asked of a band from ss to n - 1: at its start and after a nonzero coefficient, whether the block ends
      there; and each coefficient. */

  ghost function Positions(t: nat, z: seq<int>, ss: nat, kx: int, n: nat): seq<Decision>
    requires 0 < ss && n <= |z|
  {
    if n <= ss then []
    else
      var j := n - 1;
      Positions(t, z, ss, kx, j) + (AskEnd(t, j == ss || z[j - 1] != 0, j) + Coefficient(t, z, kx, j))
  }

  /** The end of the block, said unless the band is full. */
  ghost function End(t: nat, k: nat, se: nat): seq<Decision> {
    if k < se then [Answer(false, t, EndAfter(k), true)] else []
  }

  ghost function Latest(ke: nat, ss: nat): nat
    requires ss > 0
  {
    if ke >= ss then ke else ss - 1
  }

  lemma {:induction false} TapeFrom(t: nat, z: seq<int>, ss: nat, k: nat, ke: nat, kx: int, se: nat)
    requires 0 < ss <= k + 1 <= Latest(ke, ss) + 1 && Latest(ke, ss) <= se < |z| && (ke > 0 ==> z[ke] != 0)
    requires k + 1 == ss || z[k] != 0
    ensures Positions(t, z, ss, kx, k + 1) + AcTape(t, z, k, ke, kx, se) ==
            Positions(t, z, ss, kx, Latest(ke, ss) + 1) + End(t, Latest(ke, ss), se)
    decreases ke - k, 0
  {
    hide ValueTape, Positions, AcRun;
    if k < ke {
      RunFrom(t, z, ss, k + 1, ke, kx, se);
      Shift(Positions(t, z, ss, kx, k + 1), [Decision(Ac(t, 3 * k), 0)], AcRun(t, z, k + 1, ke, kx, se));
    }
  }

  lemma {:induction false} RunFrom(t: nat, z: seq<int>, ss: nat, j: nat, ke: nat, kx: int, se: nat)
    requires 0 < ss <= j <= ke <= se < |z| && z[ke] != 0
    ensures Positions(t, z, ss, kx, j) + AskEnd(t, j == ss || z[j - 1] != 0, j) + AcRun(t, z, j, ke, kx, se) ==
            Positions(t, z, ss, kx, ke + 1) + End(t, ke, se)
    decreases ke - j, 1
  {
    hide AcTape, AcRun, Coefficient, Positions, End;
    RunParts(t, z, j, ke, kx, se);
    PositionsNext(t, z, ss, kx, j);
    if z[j] == 0 {
      assert AskEnd(t, false, j + 1) == [];
      RunFrom(t, z, ss, j + 1, ke, kx, se);
      Gather(Positions(t, z, ss, kx, j), AskEnd(t, j == ss || z[j - 1] != 0, j), Coefficient(t, z, kx, j),
             AcRun(t, z, j + 1, ke, kx, se));
    } else {
      TapeFrom(t, z, ss, j, ke, kx, se);
      Gather(Positions(t, z, ss, kx, j), AskEnd(t, j == ss || z[j - 1] != 0, j), Coefficient(t, z, kx, j),
             AcTape(t, z, j, ke, kx, se));
    }
  }

  lemma PositionsNext(t: nat, z: seq<int>, ss: nat, kx: int, j: nat)
    requires 0 < ss <= j < |z|
    ensures Positions(t, z, ss, kx, j + 1) ==
            Positions(t, z, ss, kx, j) + (AskEnd(t, j == ss || z[j - 1] != 0, j) + Coefficient(t, z, kx, j))
  {
    hide Coefficient, AskEnd;
  }

  lemma RunParts(t: nat, z: seq<int>, j: nat, ke: nat, kx: int, se: nat)
    requires 0 < j <= ke <= se < |z| && z[ke] != 0
    ensures z[j] == 0 ==> j < ke
    ensures AcRun(t, z, j, ke, kx, se) == Coefficient(t, z, kx, j) +
      if z[j] == 0 then AcRun(t, z, j + 1, ke, kx, se) else AcTape(t, z, j, ke, kx, se)
  {
    hide ValueTape, AcTape;
  }

  lemma Gather(a: seq<Decision>, b: seq<Decision>, c: seq<Decision>, d: seq<Decision>)
    ensures a + b + (c + d) == a + (b + c) + d
  {
  }

  /** The decisions of a band (figure F.5): position by position up to the last nonzero one. */
  lemma AcTapeIs(t: nat, z: seq<int>, ss: nat, ke: nat, kx: int, se: nat)
    requires 0 < ss <= se < |z| && ke <= se && (ke > 0 ==> z[ke] != 0)
    ensures AcTape(t, z, ss - 1, ke, kx, se) ==
            Positions(t, z, ss, kx, Latest(ke, ss) + 1) + End(t, Latest(ke, ss), se)
  {
    TapeFrom(t, z, ss, ss - 1, ke, kx, se);
    assert Positions(t, z, ss, kx, ss) == [];
  }

  // AC refinement, coefficient by coefficient ------------------------------------------------------

  /** A coefficient in a refinement, m being the magnitudes down to the new bit: one that was nonzero before gets its
      correction bit, a new one its sign. */
  ghost function Refined(t: nat, v: seq<int>, m: seq<nat>, j: nat): seq<Decision>
    requires 0 < j < |m| == |v|
  {
    if m[j] > 1 then [Answer(false, t, LargeAt(j), m[j] % 2 == 1)]
    else if m[j] == 1 then [Answer(false, t, NonzeroAt(j), true), Decision(Fixed, if v[j] < 0 then 1 else 0)]
    else [Answer(false, t, NonzeroAt(j), false)]
  }

  predicate MayEnd(m: seq<nat>, ss: nat, kex: nat, j: nat)
    requires 0 < ss <= j <= |m|
  {
    (j == ss || m[j - 1] != 0) && j > kex
  }

  /** The same in a refinement; no end of block is asked about before position kex. */
  ghost function Refinements(t: nat, v: seq<int>, m: seq<nat>, ss: nat, kex: nat, n: nat): seq<Decision>
    requires 0 < ss && n <= |m| == |v|
  {
    if n <= ss then []
    else
      var j := n - 1;
      Refinements(t, v, m, ss, kex, j) + (AskEnd(t, MayEnd(m, ss, kex, j), j) + Refined(t, v, m, j))
  }

  lemma {:induction false} RefineFrom(t: nat, v: seq<int>, m: seq<nat>, ss: nat, k: nat, ke: nat, kex: nat, se: nat)
    requires 0 < ss <= k + 1 <= Latest(ke, ss) + 1 && Latest(ke, ss) <= se < |m| == |v| && (ke > 0 ==> m[ke] != 0)
    requires k + 1 == ss || m[k] != 0
    ensures Refinements(t, v, m, ss, kex, k + 1) + RefineTape(t, v, m, k, ke, kex, se) ==
            Refinements(t, v, m, ss, kex, Latest(ke, ss) + 1) + End(t, Latest(ke, ss), se)
    decreases ke - k, 0
  {
    hide Refinements, RefineRun;
    if k < ke {
      RefineRunFrom(t, v, m, ss, k + 1, ke, kex, se);
      Shift(Refinements(t, v, m, ss, kex, k + 1), if k >= kex then [Decision(Ac(t, 3 * k), 0)] else [],
            RefineRun(t, v, m, k + 1, ke, kex, se));
    }
  }

  lemma {:induction false} RefineRunFrom(t: nat, v: seq<int>, m: seq<nat>, ss: nat, j: nat, ke: nat, kex: nat, se: nat)
    requires 0 < ss <= j <= ke <= se < |m| == |v| && m[ke] != 0
    ensures Refinements(t, v, m, ss, kex, j) + AskEnd(t, MayEnd(m, ss, kex, j), j) +
            RefineRun(t, v, m, j, ke, kex, se) ==
            Refinements(t, v, m, ss, kex, ke + 1) + End(t, ke, se)
    decreases ke - j, 1
  {
    hide RefineTape, RefineRun, Refined, Refinements, End;
    RefineParts(t, v, m, j, ke, kex, se);
    RefinementsNext(t, v, m, ss, kex, j);
    if m[j] == 0 {
      assert AskEnd(t, false, j + 1) == [];
      RefineRunFrom(t, v, m, ss, j + 1, ke, kex, se);
      Gather(Refinements(t, v, m, ss, kex, j), AskEnd(t, MayEnd(m, ss, kex, j), j), Refined(t, v, m, j),
             RefineRun(t, v, m, j + 1, ke, kex, se));
    } else {
      RefineFrom(t, v, m, ss, j, ke, kex, se);
      Gather(Refinements(t, v, m, ss, kex, j), AskEnd(t, MayEnd(m, ss, kex, j), j), Refined(t, v, m, j),
             RefineTape(t, v, m, j, ke, kex, se));
    }
  }

  lemma RefinementsNext(t: nat, v: seq<int>, m: seq<nat>, ss: nat, kex: nat, j: nat)
    requires 0 < ss <= j < |m| == |v|
    ensures Refinements(t, v, m, ss, kex, j + 1) ==
            Refinements(t, v, m, ss, kex, j) + (AskEnd(t, MayEnd(m, ss, kex, j), j) + Refined(t, v, m, j))
  {
    hide Refined, MayEnd, AskEnd;
  }

  lemma RefineParts(t: nat, v: seq<int>, m: seq<nat>, j: nat, ke: nat, kex: nat, se: nat)
    requires 0 < j <= ke <= se < |m| == |v| && m[ke] != 0
    ensures m[j] == 0 ==> j < ke
    ensures RefineRun(t, v, m, j, ke, kex, se) == Refined(t, v, m, j) +
      if m[j] == 0 then RefineRun(t, v, m, j + 1, ke, kex, se) else RefineTape(t, v, m, j, ke, kex, se)
  {
    hide RefineTape;
  }

  /** The decisions of a refinement of a band (figure G.10). */
  lemma RefineTapeIs(t: nat, v: seq<int>, m: seq<nat>, ss: nat, ke: nat, kex: nat, se: nat)
    requires 0 < ss <= se < |m| == |v| && ke <= se && (ke > 0 ==> m[ke] != 0)
    ensures RefineTape(t, v, m, ss - 1, ke, kex, se) ==
            Refinements(t, v, m, ss, kex, Latest(ke, ss) + 1) + End(t, Latest(ke, ss), se)
  {
    RefineFrom(t, v, m, ss, ss - 1, ke, kex, se);
    assert Refinements(t, v, m, ss, kex, ss) == [];
  }

  // Blocks -----------------------------------------------------------------------------------------

  /** A block of a sequential scan: its difference from the prediction under the component's category, then its AC
      coefficients position by position up to the last nonzero one. */
  lemma SequentialBlock(g: ArithScan.Config, ci: nat, v: seq<int>, s: ArithScan.State)
    requires ArithScan.IsConfig(g) && ArithScan.IsState(g, s) && ci < |g.dc| && |v| == 64 && g.kind.Sequential?
    ensures var d, a, ke := g.dc[ci], g.ac[ci], EndIndex(v, g.se);
      ArithScan.BlockTape(g, ci, v, s) ==
        DcTape(d, s.context[ci], v[0] - s.last[ci]) +
        if g.se == 0 then [] else Positions(a, v, 1, g.kx[a], ke + 1) + End(a, ke, g.se)
  {
    hide DcTape, AcTape, Positions, End, EndIndex, Transformed;
    if g.se > 0 {
      NothingTransformed(v);
      AcTapeIs(g.ac[ci], v, 1, EndIndex(v, g.se), g.kx[g.ac[ci]], g.se);
    }
  }

  /** A block of a first AC scan: its band up to the last coefficient that is nonzero at the scan's precision. */
  lemma AcFirstBlock(g: ArithScan.Config, ci: nat, v: seq<int>, s: ArithScan.State)
    requires ArithScan.IsConfig(g) && ArithScan.IsState(g, s) && ci < |g.dc| && |v| == 64 && g.kind.AcFirst?
    ensures var a, z := g.ac[ci], Transformed(v, g.al);
      var e := Latest(EndIndex(z, g.se), g.ss);
      ArithScan.BlockTape(g, ci, v, s) == Positions(a, z, g.ss, g.kx[a], e + 1) + End(a, e, g.se)
  {
    hide AcTape, Positions, End, EndIndex, Transformed;
    var z := Transformed(v, g.al);
    AcTapeIs(g.ac[ci], z, g.ss, EndIndex(z, g.se), g.kx[g.ac[ci]], g.se);
  }

  /** A block of a refinement AC scan: the same up to the last coefficient ke that is nonzero now, its end coming after
      the last one that was nonzero before, kex. */
  lemma AcRefineBlock(g: ArithScan.Config, ci: nat, v: seq<int>, s: ArithScan.State, ke: nat, kex: nat)
    requires ArithScan.IsConfig(g) && ArithScan.IsState(g, s) && ci < |g.dc| && |v| == 64 && g.kind.AcRefine?
    requires ke == EndIndex(Transformed(v, g.al), g.se) && kex == EndIndex(Transformed(v, g.al + 1), ke)
    ensures var a, e := g.ac[ci], Latest(ke, g.ss);
      ArithScan.BlockTape(g, ci, v, s) ==
        Refinements(a, v, Magnitudes(v, g.al), g.ss, kex, e + 1) + End(a, e, g.se)
  {
    hide RefineTape, Refinements, End, EndIndex, Transformed, Magnitudes, ArithScan.BlockTape, Latest;
    RefineForm(g, ci, v, s, ke, kex);
    RefineTapeIs(g.ac[ci], v, Magnitudes(v, g.al), g.ss, ke, kex, g.se);
  }

  lemma RefineForm(g: ArithScan.Config, ci: nat, v: seq<int>, s: ArithScan.State, ke: nat, kex: nat)
    requires ArithScan.IsConfig(g) && ArithScan.IsState(g, s) && ci < |g.dc| && |v| == 64 && g.kind.AcRefine?
    requires ke == EndIndex(Transformed(v, g.al), g.se) && kex == EndIndex(Transformed(v, g.al + 1), ke)
    ensures ke > 0 ==> Magnitudes(v, g.al)[ke] != 0
    ensures ArithScan.BlockTape(g, ci, v, s) == RefineTape(g.ac[ci], v, Magnitudes(v, g.al), g.ss - 1, ke, kex, g.se)
  {
    hide RefineTape, EndIndex, Transformed, Magnitudes;
    ArithScan.EndNonzero(v, g.al, g.se);
  }

  lemma NothingTransformed(v: seq<int>)
    ensures Transformed(v, 0) == v
  {
  }
}
