/** What the tokens of a progressive AC scan say, read block by block as sections G.2.2 and G.2.3 of ITU-T T.81 read
    them: the encoder's delayed output says the values of every block. */
module BandMeaning {
  import opened Numbers
  import opened Tokens
  import opened Values
  import opened BandPlan
  import opened BandStream
  import opened TokenMeaning

  // First scans -------------------------------------------------------------------------------------

  lemma LogOf(n: nat)
    requires 0 < n <= 0x7FFF
    ensures Log2(n) <= 14 && n % Pow2(Log2(n)) == n - Pow2(Log2(n)) && (Log2(n) == 0 ==> n == 1)
  {
    Log2Bound(n);
    ModUnique(n, Pow2(Log2(n)), 1, n - Pow2(Log2(n)));
  }

  /** The end of n bands is said. */
  lemma EndSaid(n: nat, rest: seq<Token>, k: nat, se: nat)
    requires 0 < n <= 0x7FFF && k <= se
    ensures ReadValues(EobTokens(n) + rest, k, se) == Read(Fill(0, se + 1 - k), n - 1, rest)
  {
    hide Log2, Extend, Pow2;
    LogOf(n);
    var r := Log2(n);
    SizeFits(r, 0);
    if r == 0 {
      ReadsEnd(rest, k, se);
    } else {
      assert (EobTokens(n) + rest)[1..][0] == Raw(n, r) && (EobTokens(n) + rest)[2..] == rest;
    }
  }

  lemma FirstParts(u: seq<int>, k: nat, n: nat, se: nat, more: seq<Token>)
    requires k <= se < |u| && n == Next(u, k, se)
    ensures n > se ==> FirstCodes(u, k, se) + more == more
    ensures n <= se && n - k > 15 ==> FirstCodes(u, k, se) + more == [Sym(0xF0)] + (FirstCodes(u, k + 16, se) + more)
    ensures n <= se && n - k <= 15 ==>
      FirstCodes(u, k, se) + more == ValueTokens(n - k, u[n]) + (FirstCodes(u, n + 1, se) + more)
  {
    hide Next, ValueTokens;
    if n > se {
      assert [] + more == more;
    } else if n - k > 15 {
      TokenMeaning.Regroup([Sym(0xF0)], FirstCodes(u, k + 16, se), more);
    } else {
      TokenMeaning.Regroup(ValueTokens(n - k, u[n]), FirstCodes(u, n + 1, se), more);
    }
  }

  /** After trailing zeros comes the end of n bands. */
  function Closing(last: int, n: nat): seq<Token>
    requires last == 0 ==> n > 0
  {
    if last == 0 then EobTokens(n) else []
  }

  function StillToCome(last: int, n: nat): nat
    requires last == 0 ==> n > 0
  {
    if last == 0 then n - 1 else 0
  }

  /** The codes of a band, with what closes it. */
  lemma {:induction false} FirstSaid(u: seq<int>, k: nat, se: nat, n: nat, rest: seq<Token>)
    requires k <= se + 1 <= |u| && (k > se ==> u[se] != 0) && Short(u, k, se) && (u[se] == 0 ==> 0 < n <= 0x7FFF)
    ensures ReadValues(FirstCodes(u, k, se) + (Closing(u[se], n) + rest), k, se) ==
            Read(u[k..se + 1], StillToCome(u[se], n), rest)
    decreases se + 1 - k
  {
    hide BitLength, ValueTokens, ReadValues, Next, FirstCodes, Short, Closing, StillToCome;
    var more := Closing(u[se], n) + rest;
    if k > se {
      NoCodesLeft(u, se);
      NothingToClose(u[se], n, rest);
      NothingLeft(FirstCodes(u, k, se), rest, u, se);
    } else {
      var m := Next(u, k, se);
      FirstParts(u, k, m, se, more);
      if m > se {
        CloseSaid(n, rest, k, se);
        ZerosThen(u, k, se + 1, se + 1);
      } else if m - k > 15 {
        ShortFrom(u, k, k + 16, se);
        FirstSaid(u, k + 16, se, n, rest);
        ReadsZeros(FirstCodes(u, k + 16, se) + more, k, se);
        ZerosThen(u, k, k + 16, se + 1);
      } else {
        ShortFrom(u, k, m, se);
        FirstSaid(u, m + 1, se, n, rest);
        ReadsValue(m - k, u[m], FirstCodes(u, m + 1, se) + more, k, se);
        ZerosThen(u, k, m, se + 1);
      }
    }
  }

  lemma NothingToClose(last: int, n: nat, rest: seq<Token>)
    requires last != 0
    ensures Closing(last, n) + rest == rest && StillToCome(last, n) == 0
  {
  }

  lemma CloseSaid(n: nat, rest: seq<Token>, k: nat, se: nat)
    requires 0 < n <= 0x7FFF && k <= se
    ensures ReadValues(Closing(0, n) + rest, k, se) == Read(Fill(0, se + 1 - k), StillToCome(0, n), rest)
  {
    hide EobTokens;
    EndSaid(n, rest, k, se);
  }

  lemma NoCodesLeft(u: seq<int>, se: nat)
    requires se < |u|
    ensures FirstCodes(u, se + 1, se) == []
  {
  }

  // Refinements -------------------------------------------------------------------------------------

  /** What a refinement says of a coefficient of magnitude t: its next bit if it was nonzero before, or whether it is
      new, and its sign. */
  function News(v: int, t: nat): int {
    if t > 1 then t % 2 else if t == 0 then 0 else if v < 0 then -1 else 1
  }

  /** Correction bits of the coefficients that were nonzero before, up to the end of the band. */
  function ReadTail(ts: seq<Token>, known: seq<bool>, k: nat, se: nat): Read<int>
    requires se < |known|
    decreases se + 1 - k
  {
    if k > se then Read([], 0, ts)
    else if !known[k] then Before([0], ReadTail(ts, known, k + 1, se))
    else if Number(ts, 1) < 0 then Failed
    else Before([Number(ts, 1)], ReadTail(ts[1..], known, k + 1, se))
  }

  /** Coefficients k to se. A symbol announces a new coefficient after r zeros, or 16 zeros, or the end of 2^r bands or
      more; correction bits come as coefficients are passed over. */
  function ReadCodes(ts: seq<Token>, known: seq<bool>, k: nat, se: nat): Read<int>
    requires se < |known|
    decreases se + 1 - k, 1
  {
    if k > se then Read([], 0, ts)
    else if |ts| == 0 || !ts[0].Sym? then Failed
    else
      var r, n := ts[0].s / 16, ts[0].s % 16;
      if n == 1 then
        if Number(ts[1..], 1) < 0 then Failed
        else PassOver(ts[2..], known, k, se, r, if Number(ts[1..], 1) == 1 then 1 else -1)
      else if n > 1 then Failed
      else if r == 15 then PassOver(ts[1..], known, k, se, 15, 0)
      else if r == 0 then ReadTail(ts[1..], known, k, se)
      else if Number(ts[1..], r) < 0 then Failed
      else
        var tail := ReadTail(ts[2..], known, k, se);
        if tail.Failed? then Failed else Read(tail.values, Pow2(r) + Number(ts[1..], r) - 1, tail.rest)
  }

  function PassOver(ts: seq<Token>, known: seq<bool>, k: nat, se: nat, r: nat, value: int): Read<int>
    requires se < |known|
    decreases se + 1 - k, 0
  {
    if k > se then Failed
    else if known[k] then
      if Number(ts, 1) < 0 then Failed else Before([Number(ts, 1)], PassOver(ts[1..], known, k + 1, se, r, value))
    else if r == 0 then Before([value], ReadCodes(ts, known, k + 1, se))
    else Before([0], PassOver(ts, known, k + 1, se, r - 1, value))
  }

  function Known(t: seq<nat>): (known: seq<bool>)
    ensures |known| == |t|
  {
    seq(|t|, k requires 0 <= k < |t| => t[k] > 1)
  }

  ghost function AllNews(v: seq<int>, t: seq<nat>): (w: seq<int>)
    requires |v| == |t|
    ensures |w| == |t|
  {
    seq(|t|, k requires 0 <= k < |t| => News(v[k], t[k]))
  }

  lemma OneBit(bit: int, rest: seq<Token>)
    requires 0 <= bit <= 1
    ensures Number(RawBits([bit]) + rest, 1) == bit && (RawBits([bit]) + rest)[1..] == rest
  {
    assert Pow2(1) == 2;
  }

  lemma OneCorr(t: seq<nat>, j: nat)
    requires j < |t|
    ensures Corr(t, j, j + 1) == if t[j] > 1 then [t[j] % 2] else []
    ensures Zeros(t, j, j + 1) == if t[j] == 0 then 1 else 0
  {
    assert Corr(t, j, j) == [];
  }

  /** The correction bits of [j, s), a coefficient at a time. */
  lemma CorrParts(t: seq<nat>, j: nat, s: nat, rest: seq<Token>)
    requires j < s <= |t|
    ensures Zeros(t, j, s) == Zeros(t, j + 1, s) + if t[j] == 0 then 1 else 0
    ensures RawBits(Corr(t, j, s)) + rest ==
      if t[j] > 1 then RawBits([t[j] % 2]) + (RawBits(Corr(t, j + 1, s)) + rest) else RawBits(Corr(t, j + 1, s)) + rest
  {
    hide Corr, Zeros, RawBits;
    ZerosSplit(t, j, j + 1, s);
    OneCorr(t, j);
    if t[j] > 1 {
      RawBitsConcat([t[j] % 2], Corr(t, j + 1, s));
      TokenMeaning.Regroup(RawBits([t[j] % 2]), RawBits(Corr(t, j + 1, s)), rest);
    } else {
      assert [] + Corr(t, j + 1, s) == Corr(t, j + 1, s);
    }
  }

  lemma NoCorr(t: seq<nat>, j: nat, rest: seq<Token>)
    requires j <= |t|
    ensures Zeros(t, j, j) == 0 && RawBits(Corr(t, j, j)) + rest == rest
  {
    assert RawBits([]) == [];
  }

  /** What is said of position j, and of those after it. */
  lemma NewsAt(v: seq<int>, t: seq<nat>, j: nat, s: nat, r: Read<int>)
    requires j < s <= |t| == |v|
    ensures AllNews(v, t)[j] == News(v[j], t[j]) && Known(t)[j] == (t[j] > 1)
    ensures Before([News(v[j], t[j])], Before(AllNews(v, t)[j + 1..s], r)) == Before(AllNews(v, t)[j..s], r)
  {
    assert AllNews(v, t)[j..s] == [News(v[j], t[j])] + AllNews(v, t)[j + 1..s];
  }

  lemma NothingBefore(w: seq<int>, k: nat, r: Read<int>)
    requires k <= |w|
    ensures Before(w[k..k], r) == r
  {
    assert r.Failed? || [] + r.values == r.values;
  }

  /** The correction bits at the end of a band. */
  lemma {:induction false} TailSaid(v: seq<int>, t: seq<nat>, k: nat, se: nat, rest: seq<Token>)
    requires k <= se + 1 <= |t| == |v| && forall i :: k <= i <= se ==> t[i] != 1
    ensures ReadTail(RawBits(Corr(t, k, se + 1)) + rest, Known(t), k, se) ==
            Before(AllNews(v, t)[k..se + 1], Read([], 0, rest))
    decreases se + 1 - k
  {
    hide Corr, RawBits, Number, AllNews, Known, Before;
    if k > se {
      NoCorr(t, k, rest);
      NothingBefore(AllNews(v, t), k, Read([], 0, rest));
    } else {
      TailSaid(v, t, k + 1, se, rest);
      CorrParts(t, k, se + 1, rest);
      NewsAt(v, t, k, se + 1, Read([], 0, rest));
      OneBit(t[k] % 2, RawBits(Corr(t, k + 1, se + 1)) + rest);
    }
  }

  /** Passing over coefficients to where a code stops. */
  lemma {:induction false} PassSaid(v: seq<int>, t: seq<nat>, j: nat, s: nat, se: nat, rest: seq<Token>)
    requires j <= s <= se < |t| == |v| && t[s] <= 1 && forall i :: j <= i < s ==> t[i] != 1
    ensures PassOver(RawBits(Corr(t, j, s)) + rest, Known(t), j, se, Zeros(t, j, s), News(v[s], t[s])) ==
            Before(AllNews(v, t)[j..s + 1], ReadCodes(rest, Known(t), s + 1, se))
    decreases s - j
  {
    hide Corr, RawBits, Number, ReadCodes, Zeros, AllNews, Known, Before;
    var r := ReadCodes(rest, Known(t), s + 1, se);
    NewsAt(v, t, j, s + 1, r);
    if j == s {
      NoCorr(t, s, rest);
      NothingBefore(AllNews(v, t), s + 1, r);
    } else {
      PassSaid(v, t, j + 1, s, se, rest);
      CorrParts(t, j, s, rest);
      OneBit(t[j] % 2, RawBits(Corr(t, j + 1, s)) + rest);
    }
  }

  lemma ReadsNew(r: nat, x: int, more: seq<Token>, known: seq<bool>, k: nat, se: nat)
    requires k <= se < |known|
    ensures ReadCodes([Sym(16 * r + 1), Raw(SignBit(x), 1)] + more, known, k, se) ==
            PassOver(more, known, k, se, r, if x < 0 then -1 else 1)
  {
    hide PassOver;
    var ts := [Sym(16 * r + 1), Raw(SignBit(x), 1)] + more;
    assert ts[2..] == more && Pow2(1) == 2;
  }

  lemma ReadsSixteen(more: seq<Token>, known: seq<bool>, k: nat, se: nat)
    requires k <= se < |known|
    ensures ReadCodes([Sym(0xF0)] + more, known, k, se) == PassOver(more, known, k, se, 15, 0)
  {
    hide PassOver;
    assert ([Sym(0xF0)] + more)[1..] == more;
  }

  /** One code and the coefficients it passes over. */
  lemma ChunkSaid(v: seq<int>, t: seq<nat>, c: nat, eob: nat, se: nat, rest: seq<Token>)
    requires c <= eob <= se < |t| == |v| && t[eob] == 1
    ensures var s := Stop(t, c, 0, eob);
      ReadCodes(Chunk(v, t, c, s) + rest, Known(t), c, se) ==
      Before(AllNews(v, t)[c..s + 1], ReadCodes(rest, Known(t), s + 1, se))
  {
    hide Stop, Corr, RawBits, ReadCodes, PassOver, AllNews, Known, Before, Zeros;
    assert Zeros(t, c, c) == 0 by { NoCorr(t, c, rest); }
    StopIs(t, c, c, eob);
    var s := Stop(t, c, 0, eob);
    var more := RawBits(Corr(t, c, s)) + rest;
    PassSaid(v, t, c, s, se, rest);
    if t[s] == 1 {
      TokenMeaning.Regroup([Sym(16 * Zeros(t, c, s) + 1), Raw(SignBit(v[s]), 1)], RawBits(Corr(t, c, s)), rest);
      ReadsNew(Zeros(t, c, s), v[s], more, Known(t), c, se);
    } else {
      TokenMeaning.Regroup([Sym(0xF0)], RawBits(Corr(t, c, s)), rest);
      ReadsSixteen(more, Known(t), c, se);
    }
  }

  function CodesEndAt(c: nat, eob: nat): nat {
    if eob == 0 || c > eob then c else eob + 1
  }

  lemma BeforeTwo(w: seq<int>, c: nat, s: nat, e: nat, r: Read<int>)
    requires c <= s <= e <= |w|
    ensures Before(w[c..s], Before(w[s..e], r)) == Before(w[c..e], r)
  {
    assert w[c..e] == w[c..s] + w[s..e];
  }

  /** All codes of a block. */
  lemma {:induction false} CodesSaid(v: seq<int>, t: seq<nat>, c: nat, eob: nat, se: nat, rest: seq<Token>)
    requires c <= se + 1 && eob <= se < |t| == |v| && (eob > 0 ==> t[eob] == 1)
    ensures var e := CodesEndAt(c, eob);
      ReadCodes(BlockCodes(v, t, c, eob) + rest, Known(t), c, se) ==
      Before(AllNews(v, t)[c..e], ReadCodes(rest, Known(t), e, se))
    decreases eob - c
  {
    hide Stop, Chunk, ReadCodes, AllNews, Known, Before;
    if eob == 0 || c > eob {
      assert BlockCodes(v, t, c, eob) + rest == rest;
      NothingBefore(AllNews(v, t), c, ReadCodes(rest, Known(t), c, se));
    } else {
      var s := Stop(t, c, 0, eob);
      CodesSaid(v, t, s + 1, eob, se, rest);
      ChunkSaid(v, t, c, eob, se, BlockCodes(v, t, s + 1, eob) + rest);
      TokenMeaning.Regroup(Chunk(v, t, c, s), BlockCodes(v, t, s + 1, eob), rest);
      BeforeTwo(AllNews(v, t), c, s + 1, eob + 1, ReadCodes(rest, Known(t), eob + 1, se));
    }
  }

  lemma ReadsRun(n: nat, more: seq<Token>, known: seq<bool>, k: nat, se: nat)
    requires 0 < n <= 0x7FFF && k <= se < |known|
    ensures var tail := ReadTail(more, known, k, se);
      ReadCodes(EobTokens(n) + more, known, k, se) ==
      if tail.Failed? then Failed else Read(tail.values, if Log2(n) > 0 then n - 1 else tail.run, tail.rest)
  {
    hide Log2, Pow2, ReadTail, PassOver;
    LogOf(n);
    var r := Log2(n);
    SizeFits(r, 0);
    if r == 0 {
      assert (EobTokens(n) + more)[1..] == more;
    } else {
      assert (EobTokens(n) + more)[1..][0] == Raw(n, r) && (EobTokens(n) + more)[2..] == more;
    }
  }

  /** The tail of a block that leads a run of n. */
  lemma LedTailSaid(v: seq<int>, t: seq<nat>, n: nat, k: nat, se: nat, rest: seq<Token>)
    requires 0 < n <= 0x7FFF && k <= se < |t| == |v| && forall i :: k <= i <= se ==> t[i] != 1
    ensures ReadCodes(EobTokens(n) + (RawBits(Corr(t, k, se + 1)) + rest), Known(t), k, se) ==
            Before(AllNews(v, t)[k..se + 1], Read([], n - 1, rest))
  {
    hide ReadTail, ReadCodes, EobTokens, AllNews, RawBits, Corr, Log2;
    LogOf(n);
    TailSaid(v, t, k, se, rest);
    ReadsRun(n, RawBits(Corr(t, k, se + 1)) + rest, Known(t), k, se);
  }

  // Blocks --------------------------------------------------------------------------------------------

  /** What a scan says of a block: its values, or what is new. */
  ghost function Said(v: seq<int>, b: Band): (w: seq<int>)
    requires |v| == 64 && IsBand(b)
    ensures |w| == b.se + 1 - b.ss
  {
    (if b.first then Sent(v, b.al) else AllNews(v, Magnitudes(v, b.al)))[b.ss..b.se + 1]
  }

  /** A block, inside a run of n more or not, known saying which coefficients were nonzero before. */
  function ReadBlock(ts: seq<Token>, run: nat, b: Band, known: seq<bool>): Read<int>
    requires b.se < |known|
  {
    if run == 0 then if b.first then ReadValues(ts, b.ss, b.se) else ReadCodes(ts, known, b.ss, b.se)
    else
      var tail := if b.first then Read(Fill(0, if b.ss <= b.se then b.se + 1 - b.ss else 0), 0, ts)
                  else ReadTail(ts, known, b.ss, b.se);
      if tail.Failed? then Failed else Read(tail.values, run - 1, tail.rest)
  }

  ghost function KnownBefore(v: seq<int>, b: Band): (known: seq<bool>)
    ensures |known| == |v|
  {
    Known(Magnitudes(v, b.al))
  }

  lemma LeadParts(codes: seq<Token>, end: seq<Token>, tail: seq<Token>, rest: seq<Token>)
    ensures codes + (end + tail) + rest == codes + (end + (tail + rest))
  {
  }

  lemma RefinedTail(v: seq<int>, b: Band, n: nat, rest: seq<Token>)
    requires |v| == 64 && IsBand(b) && !b.first && 0 < n <= 0x7FFF && HasTail(v, b)
    ensures ReadCodes(CodesOf(v, b) + (EobTokens(n) + (RawBits(TailOf(v, b)) + rest)), KnownBefore(v, b), b.ss, b.se) ==
            Before(Said(v, b), Read([], n - 1, rest))
  {
    hide ReadCodes, AllNews, RawBits, Corr, BlockCodes, EobTokens, Magnitudes, LastNew, Known, Before;
    var t := Magnitudes(v, b.al);
    var e := CodesEnd(t, b);
    CodesSaid(v, t, b.ss, Eob(t, b), b.se, EobTokens(n) + (RawBits(Corr(t, e, b.se + 1)) + rest));
    LedTailSaid(v, t, n, e, b.se, rest);
    BeforeTwo(AllNews(v, t), b.ss, e, b.se + 1, Read([], n - 1, rest));
  }

  lemma RefinedWhole(v: seq<int>, b: Band, rest: seq<Token>)
    requires |v| == 64 && IsBand(b) && !b.first && !HasTail(v, b)
    ensures ReadCodes(CodesOf(v, b) + rest, KnownBefore(v, b), b.ss, b.se) == Before(Said(v, b), Read([], 0, rest))
  {
    hide ReadCodes, AllNews, BlockCodes, Magnitudes, LastNew, Known, Before;
    var t := Magnitudes(v, b.al);
    CodesSaid(v, t, b.ss, Eob(t, b), b.se, rest);
    BandDone(rest, Known(t), b.se);
  }

  lemma RefinedLead(v: seq<int>, b: Band, n: nat, rest: seq<Token>)
    requires |v| == 64 && IsBand(b) && !b.first && n <= 0x7FFF && (n > 0 <==> HasTail(v, b))
    ensures ReadCodes(ItemTokens(v, b, Lead(n)) + rest, KnownBefore(v, b), b.ss, b.se) ==
            Read(Said(v, b), RunAfter(0, Lead(n)), rest)
  {
    hide ReadCodes, Said, CodesOf, TailOf, HasTail, RawBits, EobTokens, KnownBefore;
    if n > 0 {
      LeadParts(CodesOf(v, b), EobTokens(n), RawBits(TailOf(v, b)), rest);
      RefinedTail(v, b, n, rest);
    } else {
      assert CodesOf(v, b) + [] == CodesOf(v, b);
      RefinedWhole(v, b, rest);
    }
  }

  lemma BandDone(rest: seq<Token>, known: seq<bool>, se: nat)
    requires se < |known|
    ensures ReadCodes(rest, known, se + 1, se) == Read([], 0, rest)
  {
  }

  lemma SentShort(v: seq<int>, b: Band)
    requires |v| == 64 && IsBand(b) && b.first && Expressible(v, b)
    ensures Short(Sent(v, b.al), b.ss, b.se)
    ensures Sent(v, b.al)[b.se] == 0 <==> HasTail(v, b)
  {
    hide BitLength, Shifted;
    forall j | b.ss <= j <= b.se ensures BitLength(Abs(Sent(v, b.al)[j])) < 16 {
      assert Fits(v[j], b.al);
    }
  }

  lemma FirstLead(v: seq<int>, b: Band, n: nat, rest: seq<Token>)
    requires |v| == 64 && IsBand(b) && b.first && n <= 0x7FFF && (n > 0 <==> HasTail(v, b)) && Expressible(v, b)
    ensures ReadValues(ItemTokens(v, b, Lead(n)) + rest, b.ss, b.se) == Read(Said(v, b), RunAfter(0, Lead(n)), rest)
  {
    hide ReadValues, FirstCodes, EobTokens, Sent, Short, HasTail, Expressible, RawBits;
    var u := Sent(v, b.al);
    SentShort(v, b);
    FirstSaid(u, b.ss, b.se, n, rest);
    var codes := FirstCodes(u, b.ss, b.se);
    if n > 0 {
      assert RawBits([]) == [];
      assert codes + (EobTokens(n) + []) + rest == codes + (EobTokens(n) + rest);
    } else {
      assert codes + [] + rest == codes + ([] + rest);
    }
  }

  lemma NothingSent(v: seq<int>, b: Band)
    requires |v| == 64 && IsBand(b) && forall k :: b.ss <= k <= b.se ==> Shifted(v[k], b.al) == 0
    ensures Sent(v, b.al)[b.ss..b.se + 1] == Fill(0, b.se + 1 - b.ss)
  {
    hide Shifted;
  }

  lemma AllTail(v: seq<int>, b: Band)
    requires |v| == 64 && IsBand(b) && !b.first && Eob(Magnitudes(v, b.al), b) == 0
    ensures var t := Magnitudes(v, b.al);
      TailOf(v, b) == Corr(t, b.ss, b.se + 1) && forall i :: b.ss <= i <= b.se ==> t[i] != 1
  {
    hide Corr, Magnitudes;
  }

  lemma FollowSaid(v: seq<int>, b: Band, run: nat, rest: seq<Token>)
    requires |v| == 64 && IsBand(b) && run > 0 && CodesOf(v, b) == []
    ensures ReadBlock(ItemTokens(v, b, Follow) + rest, run, b, KnownBefore(v, b)) ==
            Read(Said(v, b), RunAfter(run, Follow), rest)
  {
    hide ReadValues, ReadCodes, ReadTail, AllNews, RawBits, Corr, BlockCodes, Magnitudes, LastNew, Known, Sent, Shifted;
    NoCodesMeansTail(v, b);
    if b.first {
      assert RawBits([]) == [] && [] + rest == rest;
      NothingSent(v, b);
    } else {
      AllTail(v, b);
      TailSaid(v, Magnitudes(v, b.al), b.ss, b.se, rest);
    }
  }

  lemma ItemSaid(v: seq<int>, b: Band, kind: Kind, run: nat, rest: seq<Token>)
    requires |v| == 64 && IsBand(b) && OkItem(v, b, kind, run) && Expressible(v, b)
    ensures ReadBlock(ItemTokens(v, b, kind) + rest, run, b, KnownBefore(v, b)) ==
            Read(Said(v, b), RunAfter(run, kind), rest)
  {
    hide ReadValues, ReadCodes, ReadTail, ItemTokens, HasTail, CodesOf, Said, KnownBefore, Expressible;
    match kind
    case Lead(n) => if b.first { FirstLead(v, b, n, rest); } else { RefinedLead(v, b, n, rest); }
    case Follow => FollowSaid(v, b, run, rest);
  }

  // Scans ---------------------------------------------------------------------------------------------

  /** The first n blocks of a segment. */
  function ReadBlocks(ts: seq<Token>, b: Band, known: seq<seq<bool>>): Read<seq<int>>
    requires forall i :: 0 <= i < |known| ==> b.se < |known[i]|
  {
    var n := |known| - 1;
    if n < 0 then Read([], 0, ts)
    else
      var r := ReadBlocks(ts, b, known[..n]);
      if r.Failed? then Failed
      else
        var block := ReadBlock(r.rest, r.run, b, known[n]);
        if block.Failed? then Failed else Read(r.values + [block.values], block.run, block.rest)
  }

  ghost function AllKnown(vs: seq<seq<int>>, b: Band): (known: seq<seq<bool>>)
    requires Blocks(vs) && IsBand(b)
    ensures |known| == |vs| && forall i :: 0 <= i < |vs| ==> |known[i]| == 64 && known[i] == KnownBefore(vs[i], b)
  {
    seq(|vs|, i requires 0 <= i < |vs| => KnownBefore(vs[i], b))
  }

  ghost function AllSaid(vs: seq<seq<int>>, b: Band): (w: seq<seq<int>>)
    requires Blocks(vs) && IsBand(b)
    ensures |w| == |vs| && forall i :: 0 <= i < |vs| ==> w[i] == Said(vs[i], b)
  {
    seq(|vs|, i requires 0 <= i < |vs| => Said(vs[i], b))
  }

  lemma {:induction false} StreamSaid(vs: seq<seq<int>>, kinds: seq<Kind>, b: Band, rest: seq<Token>)
    requires |kinds| == |vs| && Blocks(vs) && IsBand(b) && OkStream(vs, kinds, b)
    requires forall i :: 0 <= i < |vs| ==> Expressible(vs[i], b)
    ensures ReadBlocks(Stream(vs, kinds, b) + rest, b, AllKnown(vs, b)) == Read(AllSaid(vs, b), RunOf(kinds), rest)
  {
    hide ItemTokens, OkItem, ReadBlock, Said, KnownBefore, Expressible;
    var n := |vs| - 1;
    if n < 0 {
      assert Stream(vs, kinds, b) + rest == rest;
    } else {
      var item := ItemTokens(vs[n], b, kinds[n]);
      StreamSaid(vs[..n], kinds[..n], b, item + rest);
      ItemSaid(vs[n], b, kinds[n], RunOf(kinds[..n]), rest);
      TokenMeaning.Regroup(Stream(vs[..n], kinds[..n], b), item, rest);
      assert AllKnown(vs, b)[..n] == AllKnown(vs[..n], b);
      assert AllSaid(vs, b) == AllSaid(vs[..n], b) + [Said(vs[n], b)];
    }
  }

  /** A segment of a progressive AC scan: the tokens the encoder has produced when it is finished, however it delayed
      them, say each block's values, leaving no run and nothing more to read. */
  lemma SegmentSaid(vs: seq<seq<int>>, b: Band)
    requires Blocks(vs) && IsBand(b) && forall i :: 0 <= i < |vs| ==> Expressible(vs[i], b)
    ensures ReadBlocks(FlushRun(Encoded(vs, b)).tokens, b, AllKnown(vs, b)) == Read(AllSaid(vs, b), 0, [])
  {
    hide Stream, OkStream, Encoded, FlushRun, ReadBlocks, AllSaid, AllKnown, Expressible;
    var kinds := SegmentIsStream(vs, b);
    StreamSaid(vs, kinds, b, []);
    assert Stream(vs, kinds, b) + [] == Stream(vs, kinds, b);
  }
}
