/** The token stream of a progressive AC scan as a decoder consumes it: per block a series of codes,
    and end-of-band runs that span blocks. In a first scan (section G.1.2.2 of ITU-T T.81) codes carry
    values; in a refinement scan (section G.1.2.3) each code owns the correction bits of the
    coefficients it passes over. */
module BandPlan {
  import opened Numbers
  import opened Bits
  import opened Tokens
  import opened Values

  /** A band ss..se of zigzag positions, sent for the first time down to bit position al, or refined
      by that bit. */
  datatype Band = Band(ss: nat, se: nat, al: nat, first: bool)

  ghost predicate IsBand(b: Band) {
    1 <= b.ss <= b.se <= 63
  }

  /** The point transform of AC coefficients: shift the absolute value. */
  function Shifted(x: int, al: nat): (t: nat)
  {
    ShiftNonnegative(Abs(x), Pow2(al));
    Abs(x) / Pow2(al)
  }

  lemma ShiftNonnegative(x: int, u: int)
    requires 0 <= x && 0 < u
    ensures 0 <= x / u
  {
    var q := x / u;
    assert x == q * u + x % u;
    if q < 0 { MulLe(q, -1, u); }
  }

  /** The magnitudes a pass codes, by zigzag position. */
  ghost function Magnitudes(v: seq<int>, al: nat): (t: seq<nat>)
    ensures |t| == |v|
  {
    seq(|v|, k requires 0 <= k < |v| => Shifted(v[k], al))
  }

  /** The last newly nonzero position before k, or 0. */
  function LastNew(t: seq<nat>, ss: nat, k: nat): (r: nat)
    requires k <= |t|
    ensures r == 0 || (ss <= r < k && t[r] == 1)
    ensures forall j :: ss <= j < k && t[j] == 1 ==> j <= r
  {
    if k <= ss then 0 else if t[k - 1] == 1 then k - 1 else LastNew(t, ss, k - 1)
  }

  ghost function Eob(t: seq<nat>, b: Band): (r: nat)
    requires |t| == 64 && IsBand(b)
    ensures r == 0 || (b.ss <= r <= b.se && t[r] == 1)
  {
    LastNew(t, b.ss, b.se + 1)
  }

  /** Still-zero coefficients in [c, k). */
  function Zeros(t: seq<nat>, c: nat, k: nat): (r: nat)
    requires k <= |t|
  {
    if k <= c then 0 else Zeros(t, c, k - 1) + if t[k - 1] == 0 then 1 else 0
  }

  /** Correction bits of the already nonzero coefficients in [c, k). */
  function Corr(t: seq<nat>, c: nat, k: nat): (r: seq<int>)
    requires k <= |t|
    ensures forall i :: 0 <= i < |r| ==> 0 <= r[i] <= 1
    ensures |r| + Zeros(t, c, k) <= if k <= c then 0 else k - c
  {
    if k <= c then [] else Corr(t, c, k - 1) + if t[k - 1] > 1 then [t[k - 1] % 2] else []
  }

  /** Where the code that starts at c ends, r zeros having been passed by j: at the newly
      nonzero coefficient, or at the 16th zero. */
  function Stop(t: seq<nat>, j: nat, r: nat, eob: nat): (s: nat)
    requires j <= eob < |t| && t[eob] == 1
    ensures j <= s <= eob && (t[s] == 1 || t[s] == 0)
    decreases eob - j
  {
    if t[j] == 1 || (t[j] == 0 && r >= 15) then j
    else if t[j] == 0 then Stop(t, j + 1, r + 1, eob)
    else Stop(t, j + 1, r, eob)
  }

  ghost function SignBit(x: int): int { if x < 0 then 0 else 1 }

  /** The code from c to s: run/size symbol and sign, or a run of 16 zeros, with the
      correction bits in between. */
  ghost function Chunk(v: seq<int>, t: seq<nat>, c: nat, s: nat): seq<Token>
    requires s < |t| == |v|
  {
    (if t[s] == 1 then [Sym(16 * Zeros(t, c, s) + 1), Raw(SignBit(v[s]), 1)] else [Sym(0xF0)]) +
    RawBits(Corr(t, c, s))
  }

  /** All codes of a block from c up to its last newly nonzero coefficient. */
  ghost function BlockCodes(v: seq<int>, t: seq<nat>, c: nat, eob: nat): seq<Token>
    requires eob < |t| == |v| && (eob > 0 ==> t[eob] == 1)
    decreases eob - c
  {
    if eob == 0 || c > eob then []
    else var s := Stop(t, c, 0, eob); Chunk(v, t, c, s) + BlockCodes(v, t, s + 1, eob)
  }

  // Facts about stops ------------------------------------------------------------------

  lemma {:induction false} ZerosSplit(t: seq<nat>, c: nat, m: nat, k: nat)
    requires c <= m <= k <= |t|
    ensures Zeros(t, c, k) == Zeros(t, c, m) + Zeros(t, m, k)
    ensures Corr(t, c, k) == Corr(t, c, m) + Corr(t, m, k)
  {
    if m < k {
      ZerosSplit(t, c, m, k - 1);
    }
  }

  /** The stop of the code from c, seen from c on. */
  lemma {:induction false} StopIs(t: seq<nat>, c: nat, j: nat, eob: nat)
    requires c <= j <= eob < |t| && t[eob] == 1 && Zeros(t, c, j) <= 15
    requires forall i :: c <= i < j ==> t[i] != 1
    ensures var s := Stop(t, j, Zeros(t, c, j), eob);
      && Zeros(t, c, s) <= 15 && (t[s] == 0 ==> Zeros(t, c, s) == 15)
      && forall i :: c <= i < s ==> t[i] != 1
    decreases eob - j
  {
    if t[j] == 1 || (t[j] == 0 && Zeros(t, c, j) >= 15) {
    } else {
      StopIs(t, c, j + 1, eob);
    }
  }

  lemma {:induction false} ZerosMonotonic(t: seq<nat>, c: nat, m: nat, k: nat)
    requires m <= k <= |t|
    ensures Zeros(t, c, m) <= Zeros(t, c, k)
  {
    if m < k {
      ZerosMonotonic(t, c, m, k - 1);
    }
  }

  /** A newly nonzero coefficient fewer than 16 zeros away is where the code stops. */
  lemma StopAtNew(t: seq<nat>, c: nat, k: nat, eob: nat)
    requires c <= k <= eob < |t| && t[eob] == 1 && t[k] == 1
    requires (forall i :: c <= i < k ==> t[i] != 1) && Zeros(t, c, k) <= 15
    ensures Stop(t, c, 0, eob) == k
  {
    StopIs(t, c, c, eob);
    var s := Stop(t, c, 0, eob);
    if s > k {
    } else if s < k {
      ZerosMonotonic(t, c, s + 1, k);
    }
  }

  /** With more than 15 zeros passed, and no already nonzero coefficient after the 16th, the
      code stops at the 16th zero and owns all correction bits gathered so far. */
  lemma StopAtSixteen(t: seq<nat>, c: nat, k: nat, eob: nat)
    requires c <= k <= eob < |t| && t[eob] == 1
    requires (forall i :: c <= i < k ==> t[i] != 1) && Zeros(t, c, k) > 15
    requires forall j :: c <= j < k && t[j] > 1 ==> Zeros(t, c, j) <= 15
    ensures var s := Stop(t, c, 0, eob);
      && s < k && t[s] == 0 && Corr(t, c, s) == Corr(t, c, k)
      && Zeros(t, s + 1, k) == Zeros(t, c, k) - 16 && Corr(t, s + 1, k) == []
      && forall j :: s < j < k ==> t[j] == 0
  {
    StopIs(t, c, c, eob);
    var s := Stop(t, c, 0, eob);
    if s >= k {
      ZerosMonotonic(t, c, k, s);
    }
    assert s < k;
    forall j | s < j < k ensures t[j] == 0 {
      ZerosMonotonic(t, c, s + 1, j);
    }
    ZerosSplit(t, c, s + 1, k);
    AllZeros(t, s + 1, k);
  }

  lemma {:induction false} AllZeros(t: seq<nat>, c: nat, k: nat)
    requires k <= |t| && forall j :: c <= j < k ==> t[j] == 0
    ensures Corr(t, c, k) == []
  {
    if c < k {
      AllZeros(t, c, k - 1);
    }
  }

  // Runs spanning blocks ---------------------------------------------------------------

  /** An EOBn symbol with its appended bits. */
  function EobTokens(n: nat): seq<Token>
    requires n > 0
  {
    [Sym(16 * Log2(n))] + if Log2(n) > 0 then [Raw(n, Log2(n))] else []
  }

  /** Tokens produced, end-of-band run and correction bits not yet produced. */
  datatype Pending = Pending(tokens: seq<Token>, run: nat, bits: seq<int>)

  function FlushRun(p: Pending): Pending {
    if p.run > 0 then Pending(p.tokens + EobTokens(p.run) + RawBits(p.bits), 0, []) else p
  }

  const MAX_CORR_BITS := 1000
  const DCTSIZE2 := 64

  /** Where a block's codes end. */
  ghost function CodesEnd(t: seq<nat>, b: Band): (r: nat)
    requires |t| == 64 && IsBand(b)
    ensures b.ss <= r <= b.se + 1
  {
    if Eob(t, b) == 0 then b.ss else Eob(t, b) + 1
  }

  ghost function Tail(t: seq<nat>, b: Band): seq<int>
    requires |t| == 64 && IsBand(b)
  {
    Corr(t, CodesEnd(t, b), b.se + 1)
  }

  /** The values a first scan sends: shifted toward zero. */
  ghost function Sent(v: seq<int>, al: nat): (u: seq<int>)
    ensures |u| == |v|
  {
    seq(|v|, k requires 0 <= k < |v| => if v[k] < 0 then -(Shifted(v[k], al) as int) else Shifted(v[k], al))
  }

  /** The codes of a first scan from k on, k being the start of a run of zeros. */
  function FirstCodes(u: seq<int>, k: nat, se: nat): seq<Token>
    requires se < |u|
    decreases se + 1 - k
  {
    if k > se then []
    else
      var n := Next(u, k, se);
      if n > se then []
      else if n - k > 15 then [Sym(0xF0)] + FirstCodes(u, k + 16, se)
      else ValueTokens(n - k, u[n]) + FirstCodes(u, n + 1, se)
  }

  ghost function CodesOf(v: seq<int>, b: Band): seq<Token>
    requires |v| == 64 && IsBand(b)
  {
    if b.first then FirstCodes(Sent(v, b.al), b.ss, b.se)
    else var t := Magnitudes(v, b.al); BlockCodes(v, t, b.ss, Eob(t, b))
  }

  ghost function TailOf(v: seq<int>, b: Band): seq<int>
    requires |v| == 64 && IsBand(b)
  {
    if b.first then [] else Tail(Magnitudes(v, b.al), b)
  }

  /** Whether the block leaves anything to an end-of-band run: trailing zeros, or trailing
      correction bits. */
  ghost predicate HasTail(v: seq<int>, b: Band)
    requires |v| == 64 && IsBand(b)
  {
    if b.first then Shifted(v[b.se], b.al) == 0 else CodesEnd(Magnitudes(v, b.al), b) <= b.se
  }

  /** Values a first scan can express. */
  ghost predicate Expressible(v: seq<int>, b: Band) {
    |v| == 64 && (b.first ==> forall k :: b.ss <= k <= b.se && k < 64 ==> Fits(v[k], b.al))
  }

  predicate Fits(x: int, al: nat) {
    BitLength(Shifted(x, al)) <= MAX_COEF_BITS
  }

  ghost predicate FitBelow(v: seq<int>, b: Band, k: nat)
    requires |v| == 64 && IsBand(b) && k <= b.se + 1
  {
    forall i :: b.ss <= i < k ==> Fits(v[i], b.al)
  }

  lemma FittingBand(v: seq<int>, b: Band)
    requires |v| == 64 && IsBand(b) && b.first
    ensures Expressible(v, b) <==> FitBelow(v, b, b.se + 1)
    ensures FitBelow(v, b, b.ss)
  {
    hide Fits;
  }

  lemma FitNext(v: seq<int>, b: Band, k: nat)
    requires |v| == 64 && IsBand(b) && k <= b.se && FitBelow(v, b, k) && Fits(v[k], b.al)
    ensures FitBelow(v, b, k + 1)
  {
    hide Fits;
  }

  lemma Misfit(v: seq<int>, b: Band, k: nat)
    requires |v| == 64 && IsBand(b) && b.first && b.ss <= k <= b.se && !Fits(v[k], b.al)
    ensures !Expressible(v, b)
  {
    hide Fits;
  }

  /** Encoding one more block: its codes force out the pending run; its tail joins the run,
      which is forced out when the counter or the bit buffer might overflow next time. */
  ghost function AddBlock(p: Pending, v: seq<int>, b: Band): Pending
    requires |v| == 64 && IsBand(b)
  {
    var p1 := if CodesOf(v, b) == [] then p else FlushRun(p).(tokens := FlushRun(p).tokens + CodesOf(v, b));
    if !HasTail(v, b) then p1
    else
      var p2 := p1.(run := p1.run + 1, bits := p1.bits + TailOf(v, b));
      if p2.run == 0x7FFF || |p2.bits| > MAX_CORR_BITS - DCTSIZE2 + 1 then FlushRun(p2) else p2
  }

  /** Between blocks: the run counter cannot overflow, the next block's correction bits fit,
      and no bits wait without a run. */
  ghost predicate Safe(p: Pending) {
    p.run < 0x7FFF && |p.bits| <= MAX_CORR_BITS - DCTSIZE2 + 1 && (p.run == 0 ==> p.bits == []) && IsBits(p.bits)
  }

  lemma TailShort(t: seq<nat>, b: Band)
    requires |t| == 64 && IsBand(b)
    ensures |Tail(t, b)| <= 63 && IsBits(Tail(t, b))
  {
  }

  lemma TailOfShort(v: seq<int>, b: Band)
    requires |v| == 64 && IsBand(b)
    ensures |TailOf(v, b)| <= 63 && IsBits(TailOf(v, b))
  {
    TailShort(Magnitudes(v, b.al), b);
  }

  /** Safety over a whole scan: every block keeps it. */
  lemma AddBlockSafe(p: Pending, v: seq<int>, b: Band)
    requires |v| == 64 && IsBand(b) && Safe(p)
    ensures Safe(AddBlock(p, v, b))
  {
    hide CodesOf, TailOf, HasTail;
    TailOfShort(v, b);
  }

  // The encoder's lazy scan --------------------------------------------------------------

  /** While scanning coefficient k the encoder has r zeros and some correction bits in hand,
      all from the code that starts at c. ZRLs are put off, so r may exceed 15, but not while
      an already nonzero coefficient is passed before the last newly nonzero one. */
  ghost predicate Scanning(t: seq<nat>, b: Band, k: nat, c: nat, r: nat, bits: seq<int>)
    requires |t| == 64 && IsBand(b)
  {
    var eob := Eob(t, b);
    && b.ss <= c <= k <= b.se + 1 && r == Zeros(t, c, k) && bits == Corr(t, c, k)
    && (c <= eob ==> k <= eob) && (c > eob ==> c == CodesEnd(t, b))
    && (forall i :: c <= i < k ==> t[i] != 1)
    && (forall j :: c <= j < k && t[j] > 1 && j < eob ==> Zeros(t, c, j) <= 15)
  }

  lemma ScanStart(t: seq<nat>, b: Band)
    requires |t| == 64 && IsBand(b)
    ensures Scanning(t, b, b.ss, b.ss, 0, [])
  {
  }

  lemma ScanZero(t: seq<nat>, b: Band, k: nat, c: nat, r: nat, bits: seq<int>)
    requires |t| == 64 && IsBand(b) && Scanning(t, b, k, c, r, bits) && k <= b.se && t[k] == 0
    ensures Scanning(t, b, k + 1, c, r + 1, bits)
  {
  }

  lemma ScanOld(t: seq<nat>, b: Band, k: nat, c: nat, r: nat, bits: seq<int>)
    requires |t| == 64 && IsBand(b) && Scanning(t, b, k, c, r, bits) && k <= b.se && t[k] > 1
    requires k <= Eob(t, b) ==> r <= 15
    ensures Scanning(t, b, k + 1, c, r, bits + [t[k] % 2])
  {
  }

  /** A ZRL that had been put off. */
  lemma ScanZrl(v: seq<int>, t: seq<nat>, b: Band, k: nat, c: nat, r: nat, bits: seq<int>) returns (s: nat)
    requires |v| == |t| == 64 && IsBand(b) && Scanning(t, b, k, c, r, bits) && k <= Eob(t, b) && r > 15
    ensures c <= s < k && Scanning(t, b, k, s + 1, r - 16, [])
    ensures BlockCodes(v, t, c, Eob(t, b)) == [Sym(0xF0)] + RawBits(bits) + BlockCodes(v, t, s + 1, Eob(t, b))
  {
    var eob := Eob(t, b);
    forall j | c <= j < k && t[j] > 1 ensures Zeros(t, c, j) <= 15 {
    }
    StopAtSixteen(t, c, k, eob);
    s := Stop(t, c, 0, eob);
    assert Chunk(v, t, c, s) == [Sym(0xF0)] + RawBits(bits);
  }

  /** A newly nonzero coefficient. */
  lemma ScanNew(v: seq<int>, t: seq<nat>, b: Band, k: nat, c: nat, r: nat, bits: seq<int>)
    requires |v| == |t| == 64 && IsBand(b) && Scanning(t, b, k, c, r, bits) && k <= b.se && t[k] == 1 && r <= 15
    ensures Scanning(t, b, k + 1, k + 1, 0, [])
    ensures BlockCodes(v, t, c, Eob(t, b)) ==
            [Sym(16 * r + 1), Raw(SignBit(v[k]), 1)] + RawBits(bits) + BlockCodes(v, t, k + 1, Eob(t, b))
  {
    StopAtNew(t, c, k, Eob(t, b));
  }

  lemma {:induction false} ZerosAndCorr(t: seq<nat>, c: nat, k: nat)
    requires c <= k <= |t| && forall i :: c <= i < k ==> t[i] != 1
    ensures Zeros(t, c, k) + |Corr(t, c, k)| == k - c
  {
    if c < k {
      ZerosAndCorr(t, c, k - 1);
    }
  }

  /** At the end of the band all codes are out, and what is left is the tail. */
  lemma ScanEnd(v: seq<int>, b: Band, c: nat, r: nat, bits: seq<int>)
    requires |v| == 64 && IsBand(b) && !b.first && Scanning(Magnitudes(v, b.al), b, b.se + 1, c, r, bits)
    ensures BlockCodes(v, Magnitudes(v, b.al), c, Eob(Magnitudes(v, b.al), b)) == []
    ensures bits == TailOf(v, b) && (HasTail(v, b) <==> r > 0 || |bits| > 0)
  {
    ZerosAndCorr(Magnitudes(v, b.al), c, b.se + 1);
  }
}
