/** The adaptive binary coder of sections D.1 and D.2 of ITU-T T.81 with unbounded
    precision: a code is a point, coding a decision narrows the interval the point must
    lie in. The register-level encoder and decoder are proved against this module. */
module IntervalCoder {
  import opened Numbers
  import opened ArithTable

  /** [low, low + size), in units of 2^-shifts of the initial 1/0x10000. */
  datatype Interval = Interval(low: nat, size: nat, shifts: nat)

  const WHOLE := Interval(0, 0x10000, 0)

  ghost predicate Normal(iv: Interval) {
    0x8000 <= iv.size <= 0x10000 && iv.low + iv.size <= Pow2(16 + iv.shifts)
  }

  /** The subinterval for `bit`: the upper part goes to the LPS, unless the LPS share is
      the larger one, in which case the two are exchanged. */
  function Narrow(iv: Interval, sv: int, bit: int): (r: Interval)
    requires 0x8000 <= iv.size && IsBin(sv)
    ensures 1 <= r.size < iv.size && iv.low <= r.low && r.low + r.size <= iv.low + iv.size
    ensures r.size < 0x8000 || (bit == Mps(sv) && r.low == iv.low && r.size == iv.size - Qe(sv))
  {
    var rest := iv.size - Qe(sv);
    if (bit != Mps(sv)) == (rest >= Qe(sv)) then Interval(iv.low + rest, Qe(sv), iv.shifts)
    else Interval(iv.low, rest, iv.shifts)
  }

  function Double(iv: Interval): Interval {
    Interval(2 * iv.low, 2 * iv.size, iv.shifts + 1)
  }

  function Renormalize(iv: Interval): (r: Interval)
    requires 1 <= iv.size
    ensures 0x8000 <= r.size && r.shifts >= iv.shifts
    decreases 0x8000 - iv.size
  {
    if iv.size >= 0x8000 then iv else Renormalize(Double(iv))
  }

  lemma {:induction false} RenormalizeKeepsNormal(iv: Interval)
    requires 1 <= iv.size <= 0x10000 && iv.low + iv.size <= Pow2(16 + iv.shifts)
    ensures Normal(Renormalize(iv))
    decreases 0x8000 - iv.size
  {
    if iv.size < 0x8000 {
      RenormalizeKeepsNormal(Double(iv));
    }
  }

  // Statistics bins, decisions and runs -------------------------------------------------

  /** A bin of a DC or AC statistics area, or the one fixed-probability bin. */
  datatype Bin = Dc(tbl: nat, index: nat) | Ac(tbl: nat, index: nat) | Fixed

  type Stats = map<Bin, int>

  /** Areas start zeroed; the fixed bin holds state 113. */
  function Fetch(stats: Stats, b: Bin): int {
    if b in stats then stats[b] else if b.Fixed? then LAST_STATE else 0
  }

  ghost predicate ValidStats(stats: Stats) {
    forall b :: b in stats ==> IsBin(stats[b])
  }

  datatype Decision = Decision(bin: Bin, bit: int)

  ghost predicate Binary(ds: seq<Decision>) {
    forall i :: 0 <= i < |ds| ==> 0 <= ds[i].bit <= 1
  }

  /** Coding adapts the bin, except for an MPS that needs no renormalization. */
  function Adapt(iv: Interval, stats: Stats, bin: Bin, bit: int): Stats
    requires 0x8000 <= iv.size && IsBin(Fetch(stats, bin))
  {
    var sv := Fetch(stats, bin);
    if bit == Mps(sv) && iv.size - Qe(sv) >= 0x8000 then stats
    else stats[bin := Estimate(sv, bit != Mps(sv))]
  }

  datatype Coder = Coder(iv: Interval, stats: Stats)

  const START := Coder(WHOLE, map[])

  ghost predicate ValidCoder(k: Coder) {
    Normal(k.iv) && ValidStats(k.stats)
  }

  function Step(k: Coder, bin: Bin, bit: int): (k': Coder)
    requires 0x8000 <= k.iv.size && IsBin(Fetch(k.stats, bin))
  {
    var sv := Fetch(k.stats, bin);
    Coder(Renormalize(Narrow(k.iv, sv, bit)), Adapt(k.iv, k.stats, bin, bit))
  }

  lemma StepKeepsValid(k: Coder, bin: Bin, bit: int)
    requires ValidCoder(k)
    ensures IsBin(Fetch(k.stats, bin)) && ValidCoder(Step(k, bin, bit))
    ensures Step(k, bin, bit).iv.shifts >= k.iv.shifts
  {
    RenormalizeKeepsNormal(Narrow(k.iv, Fetch(k.stats, bin), bit));
  }

  /** The coder after a whole decision sequence. */
  ghost function Run(ds: seq<Decision>): (k: Coder)
    ensures ValidCoder(k)
  {
    if |ds| == 0 then Pow2Constants(); START
    else
      var k := Run(ds[..|ds| - 1]);
      var d := ds[|ds| - 1];
      StepKeepsValid(k, d.bin, d.bit);
      Step(k, d.bin, d.bit)
  }

  lemma RunSnoc(ds: seq<Decision>, d: Decision)
    ensures IsBin(Fetch(Run(ds).stats, d.bin))
    ensures Run(ds + [d]) == Step(Run(ds), d.bin, d.bit)
  {
    assert (ds + [d])[..|ds|] == ds;
    StepKeepsValid(Run(ds), d.bin, d.bit);
  }

  // Codes ------------------------------------------------------------------------------

  /** The first m bytes of a code whose missing tail is zero. */
  function Lead(data: seq<int>, m: nat): (s: seq<int>)
    ensures |s| == m
  {
    seq(m, i requires 0 <= i => if i < |data| then data[i] else 0)
  }

  /** Bytes a decoder has taken after `shifts` renormalization shifts, and how many bits
      of them lie below the current unit. */
  function Taken(shifts: nat): nat { 2 + (shifts + 7) / 8 }

  function Spare(shifts: nat): (r: nat)
    ensures r < 8
  {
    8 * (Taken(shifts) - 2) - shifts
  }

  /** The zero-extended code `data` is a point of `iv`. */
  ghost predicate Spells(data: seq<int>, iv: Interval) {
    var x := Val(Lead(data, Taken(iv.shifts)));
    var unit := Pow2(Spare(iv.shifts));
    iv.low * unit <= x < (iv.low + iv.size) * unit
  }

  /** The decoder's choice: is the code in the upper part, and whose part is that? */
  ghost function Decide(data: seq<int>, iv: Interval, sv: int): (bit: int)
    requires 0x8000 <= iv.size && IsBin(sv)
    ensures 0 <= bit <= 1
  {
    var rest := iv.size - Qe(sv);
    var upper := Val(Lead(data, Taken(iv.shifts))) >= (iv.low + rest) * Pow2(Spare(iv.shifts));
    if upper == (rest >= Qe(sv)) then 1 - Mps(sv) else Mps(sv)
  }

  lemma NarrowDecides(data: seq<int>, iv: Interval, sv: int, bit: int)
    requires 0x8000 <= iv.size && IsBin(sv) && 0 <= bit <= 1
    ensures Spells(data, Narrow(iv, sv, bit)) <==> Spells(data, iv) && Decide(data, iv, sv) == bit
  {
    var rest := iv.size - Qe(sv);
    var unit := Pow2(Spare(iv.shifts));
    MulLe(iv.low, iv.low + rest, unit);
    MulLe(iv.low + rest, iv.low + iv.size, unit);
    var x := Val(Lead(data, Taken(iv.shifts)));
    var upper := (bit != Mps(sv)) == (rest >= Qe(sv));
    assert Decide(data, iv, sv) == bit <==> upper == (x >= (iv.low + rest) * unit);
  }

  lemma LeadSnoc(data: seq<int>, m: nat)
    ensures Lead(data, m + 1) == Lead(data, m) + [if m < |data| then data[m] else 0]
  {
  }

  /** A bound scaled by half as large a unit, doubled. */
  lemma DoubleHalf(bound: int, spare: nat)
    requires spare > 0
    ensures 2 * bound * Pow2(spare - 1) == bound * Pow2(spare)
  {
    assert Pow2(spare) == 2 * Pow2(spare - 1);
  }

  /** Renormalization reads more of the code but never changes what it spells. */
  lemma DoubleSpells(data: seq<int>, iv: Interval)
    requires IsBytes(data)
    ensures Spells(data, Double(iv)) <==> Spells(data, iv)
  {
    var n, m := iv.shifts, Taken(iv.shifts);
    if Spare(n) > 0 {
      assert Taken(n + 1) == m && Spare(n + 1) == Spare(n) - 1;
      DoubleHalf(iv.low, Spare(n));
      DoubleHalf(iv.low + iv.size, Spare(n));
    } else {
      assert Taken(n + 1) == m + 1 && Spare(n + 1) == 7;
      var b := if m < |data| then data[m] else 0;
      LeadSnoc(data, m);
      ValSnoc(Lead(data, m), b);
      assert Pow2(7) == 128 && Pow2(0) == 1;
    }
  }

  lemma {:induction false} RenormalizeSpells(data: seq<int>, iv: Interval)
    requires IsBytes(data) && 1 <= iv.size
    ensures Spells(data, Renormalize(iv)) <==> Spells(data, iv)
    decreases 0x8000 - iv.size
  {
    if iv.size < 0x8000 {
      RenormalizeSpells(data, Double(iv));
      DoubleSpells(data, iv);
    }
  }

  /** One decision: a code spells the narrowed interval exactly when it spelled the
      interval before and the decoder would choose this bit. */
  lemma StepSpells(data: seq<int>, k: Coder, bin: Bin, bit: int)
    requires IsBytes(data) && ValidCoder(k) && 0 <= bit <= 1
    ensures IsBin(Fetch(k.stats, bin))
    ensures Spells(data, Step(k, bin, bit).iv) <==>
            Spells(data, k.iv) && Decide(data, k.iv, Fetch(k.stats, bin)) == bit
  {
    var sv := Fetch(k.stats, bin);
    NarrowDecides(data, k.iv, sv, bit);
    RenormalizeSpells(data, Narrow(k.iv, sv, bit));
  }

  // Decoding a whole code --------------------------------------------------------------

  datatype Decoded = Decoded(coder: Coder, bits: seq<int>)

  /** Decodes one bit per requested bin. */
  ghost function Decoding(data: seq<int>, bins: seq<Bin>): (r: Decoded)
    ensures ValidCoder(r.coder) && |r.bits| == |bins|
  {
    if |bins| == 0 then Pow2Constants(); Decoded(START, [])
    else
      var p := Decoding(data, bins[..|bins| - 1]);
      var bin := bins[|bins| - 1];
      var bit := Decide(data, p.coder.iv, Fetch(p.coder.stats, bin));
      StepKeepsValid(p.coder, bin, bit);
      Decoded(Step(p.coder, bin, bit), p.bits + [bit])
  }

  lemma DecodeNil(data: seq<int>)
    ensures Decoding(data, []) == Decoded(START, [])
  {
  }

  lemma DecodeSnoc(data: seq<int>, bins: seq<Bin>, bin: Bin)
    ensures var p := Decoding(data, bins);
      var sv := Fetch(p.coder.stats, bin);
      IsBin(sv) &&
      Decoding(data, bins + [bin]) ==
        Decoded(Step(p.coder, bin, Decide(data, p.coder.iv, sv)), p.bits + [Decide(data, p.coder.iv, sv)])
  {
    assert (bins + [bin])[..|bins|] == bins;
  }

  ghost function Bins(ds: seq<Decision>): (r: seq<Bin>)
    ensures |r| == |ds|
  {
    seq(|ds|, i requires 0 <= i < |ds| => ds[i].bin)
  }

  ghost function Bits(ds: seq<Decision>): (r: seq<int>)
    ensures |r| == |ds|
  {
    seq(|ds|, i requires 0 <= i < |ds| => ds[i].bit)
  }

  /** Every prefix of a coded run stays inside the interval of the prefix. */
  lemma {:induction false} PrefixSpells(data: seq<int>, ds: seq<Decision>, n: nat)
    requires IsBytes(data) && Binary(ds) && n <= |ds| && Spells(data, Run(ds).iv)
    ensures Spells(data, Run(ds[..n]).iv)
  {
    if n == |ds| {
      assert ds[..n] == ds;
    } else {
      var init, d := ds[..|ds| - 1], ds[|ds| - 1];
      StepSpells(data, Run(init), d.bin, d.bit);
      PrefixSpells(data, init, n);
      assert init[..n] == ds[..n];
    }
  }

  /** The round trip: a code that spells the final interval of a run decodes, bin by bin,
      to exactly the run's bits, ending in the encoder's interval and statistics. */
  lemma {:induction false} DecodeInvertsRun(data: seq<int>, ds: seq<Decision>)
    requires IsBytes(data) && Binary(ds) && Spells(data, Run(ds).iv)
    ensures Decoding(data, Bins(ds)) == Decoded(Run(ds), Bits(ds))
  {
    hide Step, Decide;
    if |ds| > 0 {
      var init, d := ds[..|ds| - 1], ds[|ds| - 1];
      var k := Run(init);
      StepSpells(data, k, d.bin, d.bit);
      DecodeInvertsRun(data, init);
      assert Bins(ds)[..|ds| - 1] == Bins(init) && Bins(ds)[|ds| - 1] == d.bin;
      assert Bits(ds) == Bits(init) + [d.bit];
      DecodeSnoc(data, Bins(init), d.bin);
      assert Bins(ds) == Bins(init) + [d.bin];
    }
  }

  /** Conversely a code spells the interval of what it decodes to, whatever the code:
      the decoder never leaves its interval. */
  lemma {:induction false} DecodeSpells(data: seq<int>, bins: seq<Bin>)
    requires IsBytes(data)
    ensures Spells(data, Decoding(data, bins).coder.iv)
  {
    if |bins| == 0 {
      Pow2Constants();
      assert Spare(0) == 0 && Taken(0) == 2;
      ValBounds(Lead(data, 2));
    } else {
      var p := Decoding(data, bins[..|bins| - 1]);
      var bin := bins[|bins| - 1];
      DecodeSpells(data, bins[..|bins| - 1]);
      StepSpells(data, p.coder, bin, Decide(data, p.coder.iv, Fetch(p.coder.stats, bin)));
    }
  }
}
