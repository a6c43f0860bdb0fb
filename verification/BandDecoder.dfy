/** The progressive Huffman decoder for AC scans. It works on a block in place. When the input runs dry
    in a first scan, values already stored are simply stored again later; in a refinement scan it undoes
    just enough to start the block over. */
module BandDecoder {
  import opened Numbers
  import opened Bits
  import opened BitReader
  import opened Tokens
  import opened Values
  import opened BandPlan
  import opened BandStream
  import opened BandEncoder
  import opened ScanReader
  import HuffmanCodes

  // Coefficients ------------------------------------------------------------------------

  function Signed(v: int, magnitude: int): int {
    if v < 0 then -magnitude else magnitude
  }

  /** A coefficient known down to bit position al: truncated toward zero. */
  function Trunc(v: int, al: nat): int {
    Signed(v, Shifted(v, al) * Pow2(al))
  }

  /** A coefficient met during a refinement to bit al: as the earlier scans left it, or, if it
      was nonzero before, possibly already corrected by an attempt that was suspended. */
  ghost predicate Between(x: int, v: int, al: nat) {
    x == Trunc(v, al + 1) || (Shifted(v, al) > 1 && x == Trunc(v, al))
  }

  /** A coefficient met during a scan: in a first scan it is still zero, or was stored by an attempt
      that was suspended. */
  ghost predicate Awaiting(x: int, v: int, b: Band) {
    if b.first then x == 0 || x == Trunc(v, b.al) else Between(x, v, b.al)
  }

  /** Whether the coefficient's bit at position al is set, in two's complement. */
  predicate BitSet(x: int, al: nat) {
    x / Pow2(al) % 2 == 1
  }

  lemma HalfShift(v: int, al: nat)
    ensures Shifted(v, al + 1) == Shifted(v, al) / 2
  {
    hide Pow2;
    var u, t := Pow2(al), Shifted(v, al);
    assert Pow2(al + 1) == 2 * u by { Pow2Next(al); }
    var rest := Abs(v) % u;
    assert Abs(v) == t * u + rest;
    HalfShiftInt(Abs(v), t, u, rest);
  }

  lemma HalfShiftInt(x: int, t: int, u: int, rest: int)
    requires u > 0 && x == t * u + rest && 0 <= rest < u
    ensures x / (2 * u) == t / 2
  {
    var h := t / 2;
    assert t == 2 * h + t % 2;
    MulAssoc(h, 2, u);
    assert h * (2 * u) == (2 * h) * u;
    Distribute(2 * h, t % 2, u);
    assert 0 <= (t % 2) * u <= u by { if t % 2 == 0 { assert (t % 2) * u == 0; } else { assert (t % 2) * u == u; } }
    ModUnique(x, 2 * u, h, (t % 2) * u + rest);
  }

  lemma Pow2Next(al: nat)
    ensures Pow2(al + 1) == 2 * Pow2(al)
  {
  }

  /** What the earlier scans know of a coefficient: its magnitude with the low bit cleared. */
  lemma OlderIs(v: int, al: nat)
    ensures Trunc(v, al + 1) == Signed(v, (Shifted(v, al) - Shifted(v, al) % 2) * Pow2(al))
  {
    hide Pow2, Shifted;
    var t := Shifted(v, al);
    HalfShift(v, al);
    Pow2Next(al);
    assert t - t % 2 == 2 * (t / 2);
    OlderInt(t / 2, Pow2(al));
  }

  lemma OlderInt(h: int, u: int)
    ensures h * (2 * u) == (2 * h) * u
  {
  }

  /** Only a coefficient that was nonzero before looks nonzero. */
  lemma BetweenZero(x: int, v: int, al: nat)
    requires Between(x, v, al)
    ensures x == 0 <==> Shifted(v, al) <= 1
    ensures x != 0 ==> (x > 0 <==> v >= 0)
    ensures Shifted(v, al) == 0 ==> Trunc(v, al) == 0
    ensures Shifted(v, al) == 1 ==> Trunc(v, al) == Signed(v, Pow2(al))
  {
    hide Pow2, Shifted;
    var t, u := Shifted(v, al), Pow2(al);
    OlderIs(v, al);
    PositiveProduct(t, u);
    PositiveProduct(t - t % 2, u);
    assert u > 0 by { Pow2Positive(al); }
  }

  lemma Pow2Positive(al: nat)
    ensures Pow2(al) > 0
  {
  }

  lemma PositiveProduct(t: int, u: int)
    ensures t == 0 ==> t * u == 0
    ensures t > 0 && u > 0 ==> t * u > 0
    ensures t == 1 ==> t * u == u
  {
    if t > 0 && u > 0 { MulLe(1, t, u); }
  }

  /** The test on the coded bit makes corrections idempotent, for both signs. */
  lemma CorrectionIs(x: int, v: int, al: nat)
    requires Between(x, v, al) && Shifted(v, al) > 1
    ensures var t := Shifted(v, al);
      Trunc(v, al) == if t % 2 == 1 && !BitSet(x, al) then (if x >= 0 then x + Pow2(al) else x - Pow2(al)) else x
  {
    hide Pow2, Shifted;
    var t, u := Shifted(v, al), Pow2(al);
    Pow2Positive(al);
    OlderIs(v, al);
    BetweenZero(x, v, al);
    var m := if x == Trunc(v, al) then t else t - t % 2;
    var q := Signed(v, m);
    assert x == q * u by { SignedProduct(v, m, u); }
    ModUnique(x, u, q, 0);
    assert BitSet(x, al) <==> q % 2 == 1;
    if m != t {
      Distribute(t - 1, 1, u);
    }
  }

  lemma SignedProduct(v: int, m: int, u: int)
    ensures Signed(v, m * u) == Signed(v, m) * u
  {
  }

  // Blocks -------------------------------------------------------------------------------

  /** The block (by zigzag position) during the decoding of coefficient k: at the new precision below
      k, still awaiting this scan from k on, untouched outside the band. */
  ghost predicate Refining(z: seq<int>, z0: seq<int>, v: seq<int>, b: Band, k: nat) {
    && |z| == |z0| == |v| == 64
    && (forall j :: b.ss <= j < k && j <= b.se && j < 64 ==> z[j] == Trunc(v[j], b.al))
    && (forall j :: b.ss <= j && k <= j <= b.se && j < 64 ==> Awaiting(z[j], v[j], b))
    && (forall j :: 0 <= j < 64 && !(b.ss <= j <= b.se) ==> z[j] == z0[j])
  }

  lemma ZigzagUpdate(block: seq<int>, order: seq<nat>, k: nat, x: int)
    requires |block| == 64 && IsOrder(order) && k < 64
    ensures Zigzag(block[order[k] := x], order) == Zigzag(block, order)[k := x]
  {
    var after := block[order[k] := x];
    forall j | 0 <= j < 64 ensures Zigzag(after, order)[j] == Zigzag(block, order)[k := x][j] {
      if j < k { assert order[j] != order[k]; }
      if k < j { assert order[j] != order[k]; }
    }
  }

  lemma RefineNext(z: seq<int>, z0: seq<int>, v: seq<int>, b: Band, k: nat)
    requires Refining(z, z0, v, b, k) && b.ss <= k <= b.se <= 63
    ensures Refining(z[k := Trunc(v[k], b.al)], z0, v, b, k + 1)
  {
    hide Trunc, Awaiting;
  }

  lemma AwaitingZero(x: int, v: int, b: Band)
    requires Awaiting(x, v, b) && Shifted(v, b.al) == 0
    ensures x == 0 == Trunc(v, b.al)
  {
    hide Pow2, Shifted;
    if !b.first {
      BetweenZero(x, v, b.al);
    }
  }

  /** A still-zero coefficient needs nothing. */
  lemma RefineZero(z: seq<int>, z0: seq<int>, v: seq<int>, b: Band, k: nat)
    requires Refining(z, z0, v, b, k) && b.ss <= k <= b.se <= 63 && Shifted(v[k], b.al) == 0
    ensures Refining(z, z0, v, b, k + 1)
  {
    AwaitingZero(z[k], v[k], b);
    hide Trunc, Awaiting, Shifted;
    RefineNext(z, z0, v, b, k);
    assert z[k := Trunc(v[k], b.al)] == z;
  }

  /** The newly nonzero positions, which an undo must clear. */
  ghost predicate Recorded(ks: seq<nat>, v: seq<int>, b: Band, k: nat) {
    && |v| == 64
    && (forall i :: 0 <= i < |ks| ==> b.ss <= ks[i] < k && ks[i] <= b.se && ks[i] < 64 && Shifted(v[ks[i]], b.al) == 1)
    && (forall j :: b.ss <= j < k && j <= b.se && j < 64 && Shifted(v[j], b.al) == 1 ==> j in ks)
  }

  /** The block while the last recorded positions have been cleared. */
  ghost predicate Undoing(z: seq<int>, z0: seq<int>, v: seq<int>, b: Band, ks: seq<nat>) {
    && |z| == |z0| == |v| == 64
    && (forall j :: b.ss <= j <= b.se && j < 64 && j !in ks ==> Awaiting(z[j], v[j], b))
    && (forall j :: 0 <= j < 64 && !(b.ss <= j <= b.se) ==> z[j] == z0[j])
  }

  lemma UndoStart(z: seq<int>, z0: seq<int>, v: seq<int>, b: Band, k: nat, ks: seq<nat>)
    requires Refining(z, z0, v, b, k) && Recorded(ks, v, b, k) && !b.first
    ensures Undoing(z, z0, v, b, ks)
  {
    hide Pow2, Shifted, Trunc, Between;
    forall j | b.ss <= j <= b.se && j < 64 && j !in ks ensures Awaiting(z[j], v[j], b) {
      if j < k {
        DoneIsBetween(v[j], b.al);
      }
    }
  }

  lemma DoneIsBetween(v: int, al: nat)
    ensures Shifted(v, al) != 1 ==> Between(Trunc(v, al), v, al)
    ensures Shifted(v, al) == 1 ==> Between(0, v, al)
  {
    hide Pow2, Shifted;
    OlderIs(v, al);
  }

  lemma UndoOne(z: seq<int>, z0: seq<int>, v: seq<int>, b: Band, ks: seq<nat>)
    requires Undoing(z, z0, v, b, ks) && |ks| > 0 && !b.first
    requires var j := ks[|ks| - 1]; b.ss <= j <= b.se && j < 64 && Shifted(v[j], b.al) == 1
    ensures Undoing(z[ks[|ks| - 1] := 0], z0, v, b, ks[..|ks| - 1])
  {
    hide Trunc, Shifted, Between;
    var l := |ks| - 1;
    DoneIsBetween(v[ks[l]], b.al);
    forall j | j in ks && j != ks[l] ensures j in ks[..l] {
    }
  }

  // Tokens -------------------------------------------------------------------------------

  /** The bits of a code's first token, and of all that follows it. */
  lemma HeadBits(c: CTable, k: Token, ks: seq<Token>, rest: seq<int>)
    requires IsCTable(c)
    ensures AllBits(c, [k] + ks) + rest == TokenBits(c, k) + (AllBits(c, ks) + rest)
  {
    hide TokenBits;
    AllBitsConcat(c, [k], ks);
    assert [] + [k] == [k];
    AllBitsSnoc(c, [], k);
    assert AllBits(c, []) == [];
  }

  lemma SplitBits(c: CTable, s: seq<Token>, t: seq<Token>, rest: seq<int>)
    requires IsCTable(c)
    ensures AllBits(c, s + t) + rest == AllBits(c, s) + (AllBits(c, t) + rest)
  {
    AllBitsConcat(c, s, t);
  }

  /** A run length is its leading one and its appended bits. */
  lemma RunIs(n: nat)
    requires n > 0
    ensures n == Pow2(Log2(n)) + n % Pow2(Log2(n)) && (Log2(n) == 0 ==> n == 1)
  {
    hide Log2;
    var u := Pow2(Log2(n));
    ModUnique(n, u, 1, n - u);
  }

  class Decoder {
    const reader: Reader
    const table: DTable
    ghost const huff: HuffmanCodes.Table
    ghost const codes: CTable
    var eobrun: nat

    ghost predicate Ready()
      reads reader
    {
      Live(reader) && Matched(huff, codes, table)
    }

    constructor (source: Reader, d: DTable, ghost t: HuffmanCodes.Table, ghost c: CTable)
      requires Live(source) && Matched(t, c, d)
      ensures Ready() && reader == source && table == d && huff == t && codes == c && eobrun == 0
    {
      reader, table, huff, codes, eobrun := source, d, t, c, 0;
    }

    /** The correction of an already nonzero coefficient. */
    method Correct(block: array<int>, order: seq<nat>, b: Band, k: nat, ghost v: seq<int>, ghost z0: seq<int>,
                   ghost rest: seq<int>)
      returns (ok: bool)
      requires !b.first
      requires Ready() && block.Length == 64 && IsOrder(order) && b.ss <= k <= b.se <= 63
      requires Refining(Zigzag(block[..], order), z0, v, b, k) && Shifted(v[k], b.al) > 1
      requires reader.Ahead() == [Shifted(v[k], b.al) % 2] + rest
      modifies block
      modifies reader`pos, reader`marker, reader`get_buffer, reader`bits_left, reader`insufficient, reader`m,
               reader`held
      ensures Ready() && (old(reader.marker) != 0 ==> reader.marker != 0)
      ensures if ok then Refining(Zigzag(block[..], order), z0, v, b, k + 1) && reader.Ahead() == rest
              else reader.avail < |reader.src| && reader.marker == 0 && block[..] == old(block[..])
    {
      hide Pow2, Shifted, Trunc, BitSet, BitsOf, Between, Live, Reader.Ahead, Matched;
      ghost var t := Shifted(v[k], b.al);
      OneBitOf(t % 2);
      var bit;
      ok, bit := ReadBits(reader, 1, t % 2, rest);
      if !ok {
        return;
      }
      assert bit == t % 2 by { Pow2Constants(); }
      ghost var z := Zigzag(block[..], order);
      var pos := order[k];
      assert Between(z[k], v[k], b.al);
      CorrectionIs(z[k], v[k], b.al);
      RefineNext(z, z0, v, b, k);
      ZigzagUpdate(block[..], order, k, Trunc(v[k], b.al));
      ghost var was := block[..];
      if bit == 1 {
        if !BitSet(block[pos], b.al) {
          if block[pos] >= 0 {
            block[pos] := block[pos] + Pow2(b.al);
          } else {
            block[pos] := block[pos] - Pow2(b.al);
          }
        }
      }
      assert block[..] == was[pos := Trunc(v[k], b.al)];
    }

    /** Advance over already nonzero coefficients and r still-zero ones. */
    method PassOver(block: array<int>, order: seq<nat>, b: Band, start: nat, zeros: nat, ghost v: seq<int>,
                    ghost z0: seq<int>, ghost stop: nat, ghost rest: seq<int>)
      returns (ok: bool, k: nat)
      requires !b.first
      requires Ready() && block.Length == 64 && IsOrder(order) && IsBand(b) && b.ss <= start <= stop <= b.se
      requires |v| == 64
      requires Refining(Zigzag(block[..], order), z0, v, b, start)
      requires var t := Magnitudes(v, b.al);
        && t[stop] <= 1 && zeros == Zeros(t, start, stop) && (forall i :: start <= i < stop ==> t[i] != 1)
        && reader.Ahead() == Corr(t, start, stop) + rest
      modifies block
      modifies reader`pos, reader`marker, reader`get_buffer, reader`bits_left, reader`insufficient, reader`m,
               reader`held
      ensures Ready() && (old(reader.marker) != 0 ==> reader.marker != 0)
      ensures start <= k <= stop && Refining(Zigzag(block[..], order), z0, v, b, k)
      ensures if ok then k == stop && reader.Ahead() == rest else reader.avail < |reader.src| && reader.marker == 0
    {
      hide Refining, Pow2, Shifted, Zeros, Corr, Trunc, Between, Live, Matched, Reader.Ahead;
      ghost var t := Magnitudes(v, b.al);
      k, ok := start, true;
      var r: int := zeros;
      SpanEmpty(t, start, stop);
      while k <= b.se
        invariant start <= k <= stop && Ready() && (old(reader.marker) != 0 ==> reader.marker != 0)
        invariant Refining(Zigzag(block[..], order), z0, v, b, k)
        invariant r == Zeros(t, k, stop) && reader.Ahead() == Corr(t, k, stop) + rest
        decreases b.se - k
      {
        LookAt(Zigzag(block[..], order), z0, v, b, k);
        if k < stop {
          SpanStep(t, k, stop);
        } else {
          SpanEmpty(t, k, stop);
        }
        if block[order[k]] != 0 {
          ok := Correct(block, order, b, k, v, z0, Corr(t, k + 1, stop) + rest);
          if !ok {
            return;
          }
        } else {
          r := r - 1;
          if r < 0 {
            return;
          }
          RefineZero(Zigzag(block[..], order), z0, v, b, k);
        }
        k := k + 1;
      }
    }

    /** The rest of the band belongs to an end-of-band run: only corrections. */
    method PassTail(block: array<int>, order: seq<nat>, b: Band, start: nat, ghost v: seq<int>, ghost z0: seq<int>,
                    ghost rest: seq<int>)
      returns (ok: bool, k: nat)
      requires !b.first
      requires Ready() && block.Length == 64 && IsOrder(order) && IsBand(b) && b.ss <= start <= b.se && |v| == 64
      requires Refining(Zigzag(block[..], order), z0, v, b, start)
      requires var t := Magnitudes(v, b.al);
        && (forall i :: start <= i <= b.se ==> t[i] != 1) && reader.Ahead() == Corr(t, start, b.se + 1) + rest
      modifies block
      modifies reader`pos, reader`marker, reader`get_buffer, reader`bits_left, reader`insufficient, reader`m,
               reader`held
      ensures Ready() && (old(reader.marker) != 0 ==> reader.marker != 0)
      ensures start <= k <= b.se + 1 && Refining(Zigzag(block[..], order), z0, v, b, k)
      ensures if ok then k == b.se + 1 && reader.Ahead() == rest else reader.avail < |reader.src| && reader.marker == 0
    {
      hide Refining, Pow2, Shifted, Zeros, Corr, Trunc, Between, Live, Matched, Reader.Ahead;
      ghost var t := Magnitudes(v, b.al);
      k, ok := start, true;
      while k <= b.se
        invariant start <= k <= b.se + 1 && Ready() && (old(reader.marker) != 0 ==> reader.marker != 0)
        invariant Refining(Zigzag(block[..], order), z0, v, b, k)
        invariant reader.Ahead() == Corr(t, k, b.se + 1) + rest
      {
        LookAt(Zigzag(block[..], order), z0, v, b, k);
        SpanStep(t, k, b.se + 1);
        if block[order[k]] != 0 {
          ok := Correct(block, order, b, k, v, z0, Corr(t, k + 1, b.se + 1) + rest);
          if !ok {
            return;
          }
        } else {
          RefineZero(Zigzag(block[..], order), z0, v, b, k);
        }
        k := k + 1;
      }
      SpanEmpty(t, k, b.se + 1);
    }

    /** The stream holds the block's codes from k on, then its end-of-band run, if it starts
        one, with the corrections of the block's tail. */
    ghost predicate AtCode(v: seq<int>, b: Band, k: nat, n: nat, rest: seq<int>)
      requires |v| == 64 && IsBand(b) && IsCTable(codes)
      reads reader
    {
      CodeAhead(codes, v, b, k, n) && reader.Ahead() == CodeBits(codes, v, b, k, n, rest)
    }

    /** One code: a newly nonzero coefficient or a run of 16 zeros, with the corrections on the
        way; or the start of an end-of-band run. */
    method NextCode(block: array<int>, order: seq<nat>, b: Band, start: nat, newnz: array<nat>, count: nat,
                    ghost ks: seq<nat>, ghost v: seq<int>, ghost z0: seq<int>, ghost n: nat, ghost rest: seq<int>)
      returns (ok: bool, k: nat, run: nat, num: nat, ghost ks': seq<nat>)
      requires !b.first
      requires Ready() && block.Length == newnz.Length == 64 && IsOrder(order) && IsBand(b) && |v| == 64
      requires block as object != newnz as object && IsCTable(codes)
      requires b.ss <= start <= b.se && AtCode(v, b, start, n, rest)
      requires Refining(Zigzag(block[..], order), z0, v, b, start) && Noted(newnz[..], count, order, ks, v, b, start)
      modifies block, newnz
      modifies reader`pos, reader`marker, reader`get_buffer, reader`bits_left, reader`insufficient, reader`m,
               reader`held
      ensures Ready() && (old(reader.marker) != 0 ==> reader.marker != 0)
      ensures b.ss <= k <= b.se + 1 && Refining(Zigzag(block[..], order), z0, v, b, k)
      ensures Noted(newnz[..], num, order, ks', v, b, k)
      ensures if !ok then reader.avail < |reader.src| && reader.marker == 0
              else if run == 0 then k > start && AtCode(v, b, k, n, rest)
              else run == n && k == start == CodesEnd(Magnitudes(v, b.al), b) && reader.Ahead() == TailOf(v, b) + rest
    {
      hide Refining, Pow2, Shifted, Zeros, Corr, Trunc, Between, Live, Matched, Reader.Ahead, TokenBits, BitsOf, Eob;
      hide Stop;
      hide CodesEnd, CodeAhead, CodeBits, TailOf, Noted, Log2, IsCTable;
      k, run, num, ks' := start, 0, count, ks;
      ghost var t, stop := Magnitudes(v, b.al), StopOf(v, b, start);
      ghost var more := CodeBits(codes, v, b, stop + 1, n, rest);
      CodeHead(codes, v, b, start, n, rest);
      var sym, bit, extra := 0, 0, 0;
      ok, sym := ReadSymbol(reader, table, huff, codes, HeadSymbol(v, b, start, n),
                            AfterHead(codes, v, b, start, n, rest));
      if !ok {
        return;
      }
      var r, s := sym / 16, sym % 16;
      var p1: int := Pow2(b.al);
      var coef: int := 0;
      if s != 0 {
        ok, bit := ReadBits(reader, 1, SignBit(v[stop]), Corr(t, start, stop) + more);
        if !ok {
          return;
        }
        if bit == 1 {
          coef := p1;
        } else {
          coef := -p1;
        }
        SignIs(v[stop], bit);
      } else if r != 15 {
        run := Pow2(r);
        if r > 0 {
          ok, extra := ReadBits(reader, r, n, TailOf(v, b) + rest);
          if !ok {
            return;
          }
          run := run + extra;
        }
        return;
      }
      ok, k := PassOver(block, order, b, start, r, v, z0, stop, more);
      assert forall i :: start <= i < k ==> Shifted(v[i], b.al) == t[i];
      NotedUntil(newnz[..], num, order, ks, v, b, start, k);
      if !ok {
        return;
      }
      if s != 0 {
        var pos := order[k];
        ghost var was, notes := block[..], newnz[..];
        NewIs(Zigzag(was, order), z0, v, b, k, coef);
        ZigzagUpdate(was, order, k, coef);
        NotedRoom(notes, num, order, ks, v, b, k);
        block[pos] := coef;
        newnz[num] := pos;
        num := num + 1;
        ks' := ks' + [k];
        assert block[..] == was[pos := coef];
        assert newnz[..] == notes[count := pos];
      } else {
        RefineZero(Zigzag(block[..], order), z0, v, b, k);
        NotedZero(newnz[..], num, order, ks, v, b, k);
      }
      k := k + 1;
    }

    /** All codes of the block, up to the start of an end-of-band run or the end of the band. */
    method DecodeCodes(block: array<int>, order: seq<nat>, b: Band, newnz: array<nat>, ghost v: seq<int>,
                       ghost z0: seq<int>, ghost n: nat, ghost rest: seq<int>)
      returns (ok: bool, k: nat, run: nat, num: nat, ghost ks: seq<nat>)
      requires !b.first
      requires Ready() && block.Length == newnz.Length == 64 && IsOrder(order) && IsBand(b) && |v| == 64
      requires block as object != newnz as object && IsCTable(codes) && AtCode(v, b, b.ss, n, rest)
      requires Refining(Zigzag(block[..], order), z0, v, b, b.ss)
      modifies block, newnz
      modifies reader`pos, reader`marker, reader`get_buffer, reader`bits_left, reader`insufficient, reader`m,
               reader`held
      ensures Ready() && (old(reader.marker) != 0 ==> reader.marker != 0)
      ensures b.ss <= k <= b.se + 1 && Refining(Zigzag(block[..], order), z0, v, b, k)
      ensures Noted(newnz[..], num, order, ks, v, b, k)
      ensures if !ok then reader.avail < |reader.src| && reader.marker == 0
              else k == CodesEnd(Magnitudes(v, b.al), b) && run == n && (run > 0 <==> k <= b.se) &&
                   reader.Ahead() == if run > 0 then TailOf(v, b) + rest else rest
    {
      hide Refining, Live, Matched, Reader.Ahead, CodesEnd, CodeAhead, CodeBits, TailOf, Noted, IsCTable;
      ok, k, run, num, ks := true, b.ss, 0, 0, [];
      NotedNone(newnz[..], order, v, b);
      while run == 0 && k <= b.se
        invariant Ready() && (old(reader.marker) != 0 ==> reader.marker != 0)
        invariant b.ss <= k <= b.se + 1 && Refining(Zigzag(block[..], order), z0, v, b, k)
        invariant Noted(newnz[..], num, order, ks, v, b, k)
        invariant if run == 0 then AtCode(v, b, k, n, rest)
                  else && run == n && k == CodesEnd(Magnitudes(v, b.al), b) && k <= b.se
                       && reader.Ahead() == TailOf(v, b) + rest
        decreases if run == 0 then 1 else 0, b.se + 1 - k
      {
        ok, k, run, num, ks := NextCode(block, order, b, k, newnz, num, ks, v, z0, n, rest);
        if !ok {
          return;
        }
      }
      if run == 0 {
        CodesOver(codes, v, b, k, n, rest);
      }
    }

    /** Re-zero any coefficients made newly nonzero. */
    method Undo(block: array<int>, order: seq<nat>, b: Band, newnz: array<nat>, count: nat, ghost ks: seq<nat>,
                ghost v: seq<int>, ghost z0: seq<int>, ghost k: nat)
      requires !b.first
      requires block.Length == newnz.Length == 64 && IsOrder(order) && k <= b.se + 1 <= 64
      requires block as object != newnz as object
      requires Refining(Zigzag(block[..], order), z0, v, b, k) && Noted(newnz[..], count, order, ks, v, b, k)
      modifies block
      ensures Refining(Zigzag(block[..], order), z0, v, b, b.ss)
    {
      hide Between, Shifted, Trunc;
      UndoStart(Zigzag(block[..], order), z0, v, b, k, ks);
      var num := count;
      assert ks[..num] == ks;
      while num > 0
        invariant num <= |ks| && Undoing(Zigzag(block[..], order), z0, v, b, ks[..num])
      {
        ghost var was := block[..];
        num := num - 1;
        assert ks[..num + 1][..num] == ks[..num];
        UndoOne(Zigzag(was, order), z0, v, b, ks[..num + 1]);
        ZigzagUpdate(was, order, ks[num], 0);
        assert newnz[..][num] == order[ks[num]];
        block[newnz[num]] := 0;
        assert block[..] == was[newnz[num] := 0];
      }
    }

    /** The whole block: its codes if no run is open, then its tail if a run covers it. */
    method DecodeBand(block: array<int>, order: seq<nat>, b: Band, newnz: array<nat>, ghost v: seq<int>,
                      ghost z0: seq<int>, ghost kind: Kind, ghost rest: seq<int>)
      returns (ok: bool, run: nat, num: nat, ghost ks: seq<nat>, ghost k: nat)
      requires !b.first
      requires Ready() && IsCTable(codes) && block.Length == newnz.Length == 64 && IsOrder(order) && IsBand(b)
      requires |v| == 64
      requires block as object != newnz as object && Refining(Zigzag(block[..], order), z0, v, b, b.ss)
      requires OkItem(v, b, kind, eobrun) && Coded(codes, ItemTokens(v, b, kind))
      requires reader.Ahead() == AllBits(codes, ItemTokens(v, b, kind)) + rest
      modifies block, newnz
      modifies reader`pos, reader`marker, reader`get_buffer, reader`bits_left, reader`insufficient, reader`m,
               reader`held
      ensures Ready() && (old(reader.marker) != 0 ==> reader.marker != 0)
      ensures b.ss <= k <= b.se + 1 && Refining(Zigzag(block[..], order), z0, v, b, k)
      ensures Noted(newnz[..], num, order, ks, v, b, k)
      ensures if ok then k == b.se + 1 && run == RunAfter(eobrun, kind) && reader.Ahead() == rest
              else reader.avail < |reader.src| && reader.marker == 0
    {
      hide Refining, CodesEnd, CodeAhead, CodeBits, TailOf, Noted, IsCTable, OkItem, ItemTokens, Live, Matched;
      hide Reader.Ahead, RunAfter, AllBits, Coded, Shifted, Corr;
      run, num, ks, ok := eobrun, 0, [], true;
      var at := b.ss;
      StartItem(codes, v, b, kind, eobrun, rest);
      NotedNone(newnz[..], order, v, b);
      if run == 0 {
        ok, at, run, num, ks := DecodeCodes(block, order, b, newnz, v, z0, kind.n, rest);
      }
      EndAfter(v, b);
      if ok && run > 0 {
        NoNewAfter(v, b);
        ghost var from: nat := at;
        ok, at := PassTail(block, order, b, at, v, z0, rest);
        NotedUntil(newnz[..], num, order, ks, v, b, from, at);
        run := run - 1;
      }
      k := at;
    }

    /** decode_mcu_AC_first or decode_mcu_AC_refine, for a block v of a stream that goes on with `rest`. When it
        succeeds the band is exact to bit al; when the input runs dry nothing has changed but
        corrections already made, and the call can simply be repeated. */
    method DecodeMcu(block: array<int>, order: seq<nat>, b: Band, ghost v: seq<int>, ghost kind: Kind,
                     ghost rest: seq<int>)
      returns (ok: bool)
      requires Ready() && IsCTable(codes) && block.Length == 64 && IsOrder(order) && IsBand(b) && |v| == 64
      requires Refining(Zigzag(block[..], order), Zigzag(block[..], order), v, b, b.ss) && Expressible(v, b)
      requires OkItem(v, b, kind, eobrun) && Coded(codes, ItemTokens(v, b, kind))
      requires reader.Ahead() == AllBits(codes, ItemTokens(v, b, kind)) + rest
      modifies `eobrun, block
      modifies reader`pos, reader`marker, reader`get_buffer, reader`bits_left, reader`insufficient, reader`m,
               reader`held
      ensures Ready()
      ensures var z0, z := old(Zigzag(block[..], order)), Zigzag(block[..], order);
        if ok then Refining(z, z0, v, b, b.se + 1) && eobrun == RunAfter(old(eobrun), kind) && reader.Ahead() == rest
        else && Refining(z, z0, v, b, b.ss) && eobrun == old(eobrun) && reader.avail < |reader.src|
             && reader.pos == old(reader.pos) && reader.get_buffer == old(reader.get_buffer)
             && reader.bits_left == old(reader.bits_left) && reader.marker == old(reader.marker) == 0
             && reader.Ahead() == old(reader.Ahead())
    {
      hide Refining, Noted, IsCTable, Matched, OkItem, ItemTokens, Resumable, BitsFrom, Reader.Valid, Reader.Ahead;
      hide RunAfter, AllBits, Coded;
      if reader.insufficient {
        return true;
      }
      var pos, get_buffer, bits_left := reader.pos, reader.get_buffer, reader.bits_left;
      ghost var m, held := reader.m, reader.held;
      if reader.marker == 0 {
        CanResume(reader);
      }
      ghost var z0 := Zigzag(block[..], order);
      var run;
      if b.first {
        ok, run := DecodeFirst(block, order, b, v, z0, kind, rest);
      } else {
        ok, run := DecodeOrUndo(block, order, b, v, z0, kind, rest);
      }
      if ok {
        eobrun := run;
      } else {
        Rewind(reader, pos, get_buffer, bits_left, m, held);
      }
    }

    /** A refinement of the block, or none but of corrections. */
    method DecodeOrUndo(block: array<int>, order: seq<nat>, b: Band, ghost v: seq<int>, ghost z0: seq<int>,
                        ghost kind: Kind, ghost rest: seq<int>)
      returns (ok: bool, run: nat)
      requires Ready() && IsCTable(codes) && block.Length == 64 && IsOrder(order) && IsBand(b) && !b.first && |v| == 64
      requires Refining(Zigzag(block[..], order), z0, v, b, b.ss)
      requires OkItem(v, b, kind, eobrun) && Coded(codes, ItemTokens(v, b, kind))
      requires reader.Ahead() == AllBits(codes, ItemTokens(v, b, kind)) + rest
      modifies block
      modifies reader`pos, reader`marker, reader`get_buffer, reader`bits_left, reader`insufficient, reader`m,
               reader`held
      ensures Ready() && (old(reader.marker) != 0 ==> reader.marker != 0)
      ensures var z := Zigzag(block[..], order);
        if ok then Refining(z, z0, v, b, b.se + 1) && run == RunAfter(eobrun, kind) && reader.Ahead() == rest
        else Refining(z, z0, v, b, b.ss) && reader.avail < |reader.src| && reader.marker == 0
    {
      hide Refining, Noted, IsCTable, Matched, OkItem, ItemTokens, Reader.Valid, Reader.Ahead, RunAfter, AllBits, Coded;
      var newnz := new nat[64];
      var num;
      ghost var ks, k;
      ok, run, num, ks, k := DecodeBand(block, order, b, newnz, v, z0, kind, rest);
      if !ok {
        Undo(block, order, b, newnz, num, ks, v, z0, k);
      }
    }

    /** The block in a first scan: nothing but zeros inside a run, else its codes. */
    method DecodeFirst(block: array<int>, order: seq<nat>, b: Band, ghost v: seq<int>, ghost z0: seq<int>,
                       ghost kind: Kind, ghost rest: seq<int>)
      returns (ok: bool, run: nat)
      requires Ready() && IsCTable(codes) && block.Length == 64 && IsOrder(order) && IsBand(b) && b.first && |v| == 64
      requires Refining(Zigzag(block[..], order), z0, v, b, b.ss) && Expressible(v, b)
      requires OkItem(v, b, kind, eobrun) && Coded(codes, ItemTokens(v, b, kind))
      requires reader.Ahead() == AllBits(codes, ItemTokens(v, b, kind)) + rest
      modifies block
      modifies reader`pos, reader`marker, reader`get_buffer, reader`bits_left, reader`insufficient, reader`m,
               reader`held
      ensures Ready() && (old(reader.marker) != 0 ==> reader.marker != 0)
      ensures var z := Zigzag(block[..], order);
        if ok then Refining(z, z0, v, b, b.se + 1) && run == RunAfter(eobrun, kind) && reader.Ahead() == rest
        else Refining(z, z0, v, b, b.ss) && reader.avail < |reader.src| && reader.marker == 0
    {
      hide Refining, IsCTable, OkItem, ItemTokens, Live, Matched, Reader.Ahead, RunAfter, AllBits, Coded, FirstCodes;
      hide EndBits;
      ok, run := true, eobrun;
      StartFirstItem(codes, v, b, kind, eobrun, rest);
      if run > 0 {
        FirstZeros(Zigzag(block[..], order), z0, v, b, b.ss, b.se + 1);
        run := run - 1;
      } else {
        ok, run := FirstLoop(block, order, b, v, z0, kind.n, rest);
      }
    }

    /** The codes of a first scan, up to the start of an end-of-band run or the end of the band. */
    method FirstLoop(block: array<int>, order: seq<nat>, b: Band, ghost v: seq<int>, ghost z0: seq<int>, ghost n: nat,
                     ghost rest: seq<int>)
      returns (ok: bool, run: nat)
      requires Ready() && IsCTable(codes) && block.Length == 64 && IsOrder(order) && IsBand(b) && b.first && |v| == 64
      requires Refining(Zigzag(block[..], order), z0, v, b, b.ss) && Expressible(v, b)
      requires FirstAhead(codes, v, b, b.ss, n) && reader.Ahead() == FirstBits(codes, v, b, b.ss, n, rest)
      modifies block
      modifies reader`pos, reader`marker, reader`get_buffer, reader`bits_left, reader`insufficient, reader`m,
               reader`held
      ensures Ready() && (old(reader.marker) != 0 ==> reader.marker != 0)
      ensures var z := Zigzag(block[..], order);
        if ok then Refining(z, z0, v, b, b.se + 1) && run == (if n > 0 then n - 1 else 0) && reader.Ahead() == rest
        else Refining(z, z0, v, b, b.ss) && reader.avail < |reader.src| && reader.marker == 0
    {
      hide Refining, IsCTable, Live, Matched, Reader.Ahead, FirstAhead, FirstBits, Expressible, Zigzag;
      ok, run := true, 0;
      var k := b.ss;
      var over := false;
      while k <= b.se && !over
        invariant Ready() && (old(reader.marker) != 0 ==> reader.marker != 0) && b.ss <= k <= b.se + 1
        invariant Refining(Zigzag(block[..], order), z0, v, b, k)
        invariant if over then k == b.se + 1 && run + 1 == n && reader.Ahead() == rest
                  else run == 0 && FirstAhead(codes, v, b, k, n) && reader.Ahead() == FirstBits(codes, v, b, k, n, rest)
        decreases b.se + 1 - k
      {
        ok, k, run, over := FirstCode(block, order, b, k, v, z0, n, rest);
        if !ok {
          FirstRetry(Zigzag(block[..], order), z0, v, b, k);
          return;
        }
      }
      if !over {
        FirstOver(codes, v, b, k, n, rest);
      }
    }

    /** One code of a first scan. */
    method FirstCode(block: array<int>, order: seq<nat>, b: Band, start: nat, ghost v: seq<int>, ghost z0: seq<int>,
                     ghost n: nat, ghost rest: seq<int>)
      returns (ok: bool, k: nat, run: nat, over: bool)
      requires Ready() && IsCTable(codes) && block.Length == 64 && IsOrder(order) && IsBand(b) && b.first && |v| == 64
      requires b.ss <= start <= b.se && Refining(Zigzag(block[..], order), z0, v, b, start) && Expressible(v, b)
      requires FirstAhead(codes, v, b, start, n) && reader.Ahead() == FirstBits(codes, v, b, start, n, rest)
      modifies block
      modifies reader`pos, reader`marker, reader`get_buffer, reader`bits_left, reader`insufficient, reader`m,
               reader`held
      ensures Ready() && (old(reader.marker) != 0 ==> reader.marker != 0)
      ensures b.ss <= k <= b.se + 1 && Refining(Zigzag(block[..], order), z0, v, b, k)
      ensures if !ok then reader.avail < |reader.src| && reader.marker == 0
              else && k > start
                   && if over then k == b.se + 1 && run + 1 == n && reader.Ahead() == rest
                      else && run == 0 && FirstAhead(codes, v, b, k, n)
                           && reader.Ahead() == FirstBits(codes, v, b, k, n, rest)
    {
      hide Refining, IsCTable, Live, Matched, Reader.Ahead, FirstAhead, FirstBits, Expressible, Zigzag, TokenBits;
      hide BitsOf;
      hide BitLength, Log2, Sent, Pow2, FirstHead, AfterFirst;
      k, run, over := start, 0, false;
      ghost var u := Sent(v, b.al);
      ghost var next := Next(u, start, b.se);
      FirstHeadIs(codes, v, b, start, n, rest);
      var sym, value;
      ok, sym := ReadSymbol(reader, table, huff, codes, FirstHead(v, b, start, n),
                            AfterFirst(codes, v, b, start, n, rest));
      if !ok {
        return;
      }
      var r, s := sym / 16, sym % 16;
      if s != 0 {
        ok, value := ReadBits(reader, s, Complemented(u[next]), FirstBits(codes, v, b, next + 1, n, rest));
        if !ok {
          return;
        }
        k := start + r;
        StoreFirst(block, order, b, start, k, value, s, v, z0);
        k := k + 1;
      } else if r != 15 {
        if r > 0 {
          ok, value := ReadBits(reader, r, n, rest);
          if !ok {
            return;
          }
          run := Pow2(r);
          run := run + value;
          run := run - 1;
        }
        FirstZeros(Zigzag(block[..], order), z0, v, b, start, b.se + 1);
        k, over := b.se + 1, true;
      } else {
        FirstZeros(Zigzag(block[..], order), z0, v, b, start, start + 16);
        k := start + 16;
      }
    }

    /** The value bits of a nonzero coefficient of a first scan, extended and scaled by the point transform. */
    method StoreFirst(block: array<int>, order: seq<nat>, b: Band, ghost start: nat, k: nat, value: nat, s: nat,
                      ghost v: seq<int>, ghost z0: seq<int>)
      requires block.Length == 64 && IsOrder(order) && IsBand(b) && b.first && |v| == 64 && b.ss <= start <= k <= b.se
      requires Refining(Zigzag(block[..], order), z0, v, b, start)
      requires Sent(v, b.al)[k] != 0 && (forall i :: start <= i < k ==> Sent(v, b.al)[i] == 0)
      requires s == BitLength(Abs(Sent(v, b.al)[k])) && value == Complemented(Sent(v, b.al)[k]) % Pow2(s)
      modifies block
      ensures Refining(Zigzag(block[..], order), z0, v, b, k + 1)
    {
      hide Refining, Zigzag, Sent, Pow2, BitLength, Trunc;
      ghost var was := block[..];
      FirstZeros(Zigzag(was, order), z0, v, b, start, k);
      RefineNext(Zigzag(was, order), z0, v, b, k);
      ZigzagUpdate(was, order, k, Trunc(v[k], b.al));
      ExtendInverts(Sent(v, b.al)[k]);
      Rescaled(v, b.al, k);
      assert s > 0;
      block[order[k]] := Extend(value, s) * Pow2(b.al);
      assert block[..] == was[order[k] := Trunc(v[k], b.al)];
    }
  }

  // Codes ahead ---------------------------------------------------------------------------

  ghost function EndBits(c: CTable, v: seq<int>, b: Band, n: nat, rest: seq<int>): seq<int>
    requires |v| == 64 && IsBand(b) && IsCTable(c)
  {
    if n > 0 then AllBits(c, EobTokens(n)) + (TailOf(v, b) + rest) else rest
  }

  ghost function CodeBits(c: CTable, v: seq<int>, b: Band, k: nat, n: nat, rest: seq<int>): seq<int>
    requires |v| == 64 && IsBand(b) && IsCTable(c)
  {
    var t := Magnitudes(v, b.al);
    AllBits(c, BlockCodes(v, t, k, Eob(t, b))) + EndBits(c, v, b, n, rest)
  }

  /** k is where a code starts or the codes end, and everything to come has a code word. */
  ghost predicate CodeAhead(c: CTable, v: seq<int>, b: Band, k: nat, n: nat)
    requires |v| == 64 && IsBand(b) && IsCTable(c)
  {
    var t := Magnitudes(v, b.al);
    && b.ss <= k && (k <= Eob(t, b) || k == CodesEnd(t, b)) && n <= 0x7FFF && (n > 0 <==> CodesEnd(t, b) <= b.se)
    && Coded(c, BlockCodes(v, t, k, Eob(t, b))) && (n > 0 ==> Coded(c, EobTokens(n)))
  }

  ghost function StopOf(v: seq<int>, b: Band, k: nat): (s: nat)
    requires |v| == 64 && IsBand(b) && k < 64
    ensures k <= s < 64
  {
    var t := Magnitudes(v, b.al);
    if k <= Eob(t, b) && Eob(t, b) > 0 then Stop(t, k, 0, Eob(t, b)) else k
  }

  ghost function HeadSymbol(v: seq<int>, b: Band, k: nat, n: nat): nat
    requires |v| == 64 && IsBand(b) && k < 64
  {
    var t := Magnitudes(v, b.al);
    if k <= Eob(t, b) then if t[StopOf(v, b, k)] == 1 then 16 * Zeros(t, k, StopOf(v, b, k)) + 1 else 0xF0
    else if n > 0 then 16 * Log2(n) else 0
  }

  ghost function AfterHead(c: CTable, v: seq<int>, b: Band, k: nat, n: nat, rest: seq<int>): seq<int>
    requires |v| == 64 && IsBand(b) && IsCTable(c) && k < 64
  {
    var t, s := Magnitudes(v, b.al), StopOf(v, b, k);
    if k <= Eob(t, b) then
      (if t[s] == 1 then BitsOf(SignBit(v[s]), 1) else []) + (Corr(t, k, s) + CodeBits(c, v, b, s + 1, n, rest))
    else (if n > 0 then BitsOf(n, Log2(n)) else []) + (TailOf(v, b) + rest)
  }

  /** What the next symbol is and what it announces. */
  lemma CodeHead(c: CTable, v: seq<int>, b: Band, k: nat, n: nat, rest: seq<int>)
    requires |v| == 64 && IsBand(b) && IsCTable(c) && k <= b.se && CodeAhead(c, v, b, k, n)
    ensures var h := HeadSymbol(v, b, k, n); var t, s := Magnitudes(v, b.al), StopOf(v, b, k);
      && h < 256 && c.si[h] > 0
      && CodeBits(c, v, b, k, n, rest) == TokenBits(c, Sym(h)) + AfterHead(c, v, b, k, n, rest)
      && (h % 16 != 0 ==> t[s] == 1)
      && (h % 16 != 0 || h / 16 == 15 ==>
            && k <= s <= b.se && t[s] <= 1 && h / 16 == Zeros(t, k, s) && (forall i :: k <= i < s ==> t[i] != 1)
            && (h % 16 == 0 ==> t[s] == 0) && CodeAhead(c, v, b, s + 1, n)
            && AfterHead(c, v, b, k, n, rest) ==
               (if h % 16 != 0 then BitsOf(SignBit(v[s]), 1)
                else []) + (Corr(t, k, s) + CodeBits(c, v, b, s + 1, n, rest)))
      && (h % 16 == 0 && h / 16 != 15 ==>
            && k == CodesEnd(t, b) && n > 0 && n == Pow2(h / 16) + n % Pow2(h / 16) && h / 16 <= 14
            && (h / 16 == 0 ==> n == Pow2(h / 16))
            && AfterHead(c, v, b, k, n, rest) == BitsOf(n, h / 16) + (TailOf(v, b) + rest))
  {
    var t := Magnitudes(v, b.al);
    if k <= Eob(t, b) {
      ChunkHead(c, v, b, k, n, rest);
    } else {
      RunHead(c, v, b, k, n, rest);
    }
  }

  lemma ChunkHead(c: CTable, v: seq<int>, b: Band, k: nat, n: nat, rest: seq<int>)
    requires |v| == 64 && IsBand(b) && IsCTable(c) && k <= Eob(Magnitudes(v, b.al), b) && CodeAhead(c, v, b, k, n)
    ensures var h := HeadSymbol(v, b, k, n); var t, s := Magnitudes(v, b.al), StopOf(v, b, k);
      && h < 256 && c.si[h] > 0
      && CodeBits(c, v, b, k, n, rest) == TokenBits(c, Sym(h)) + AfterHead(c, v, b, k, n, rest)
      && k <= s <= b.se && t[s] <= 1 && h / 16 == Zeros(t, k, s) && (forall i :: k <= i < s ==> t[i] != 1)
      && (h % 16 != 0 <==> t[s] == 1) && (h % 16 == 0 ==> t[s] == 0 && h / 16 == 15) && CodeAhead(c, v, b, s + 1, n)
  {
    hide Pow2, Shifted, TokenBits, BitsOf, TailOf, EobTokens, EndBits, IsCTable, AllBits, Coded, Corr, Zeros, Stop;
    var t, eob := Magnitudes(v, b.al), Eob(Magnitudes(v, b.al), b);
    var s := Stop(t, k, 0, eob);
    SpanEmpty(t, k, k);
    StopIs(t, k, k, eob);
    var codes := BlockCodes(v, t, s + 1, eob);
    assert BlockCodes(v, t, k, eob) == Chunk(v, t, k, s) + codes;
    var end := EndBits(c, v, b, n, rest);
    CodedSplit(c, Chunk(v, t, k, s), codes);
    SplitBits(c, Chunk(v, t, k, s), codes, end);
    ChunkBits(c, v, t, k, s, AllBits(c, codes) + end);
    CodedHead(c, Chunk(v, t, k, s));
  }

  lemma RunHead(c: CTable, v: seq<int>, b: Band, k: nat, n: nat, rest: seq<int>)
    requires |v| == 64 && IsBand(b) && IsCTable(c) && Eob(Magnitudes(v, b.al), b) < k <= b.se
    requires CodeAhead(c, v, b, k, n)
    ensures var h := HeadSymbol(v, b, k, n);
      && h < 256 && c.si[h] > 0
      && CodeBits(c, v, b, k, n, rest) == TokenBits(c, Sym(h)) + AfterHead(c, v, b, k, n, rest)
      && h % 16 == 0 && h / 16 <= 14 && n > 0 && h / 16 == Log2(n) && n == Pow2(h / 16) + n % Pow2(h / 16)
      && (h / 16 == 0 ==> n == Pow2(h / 16))
      && AfterHead(c, v, b, k, n, rest) == BitsOf(n, h / 16) + (TailOf(v, b) + rest)
  {
    hide Pow2, Shifted, TokenBits, BitsOf, TailOf, IsCTable, Log2;
    var t, eob := Magnitudes(v, b.al), Eob(Magnitudes(v, b.al), b);
    assert BlockCodes(v, t, k, eob) == [];
    assert AllBits(c, []) == [];
    assert EobTokens(n)[0] == Sym(16 * Log2(n));
    Log2Bound(n);
    RunIs(n);
    EobBits(c, n, TailOf(v, b) + rest);
    assert [] + EndBits(c, v, b, n, rest) == EndBits(c, v, b, n, rest);
    assert Pow2(0) == 1 by { Pow2Zero(); }
  }

  lemma Pow2Zero()
    ensures Pow2(0) == 1
  {
  }

  lemma EobBits(c: CTable, n: nat, rest: seq<int>)
    requires IsCTable(c) && n > 0
    ensures AllBits(c, EobTokens(n)) + rest == TokenBits(c, Sym(16 * Log2(n))) + (BitsOf(n, Log2(n)) + rest)
  {
    hide BitsOf, Log2, AllBits, TokenBits, IsCTable;
    var r := Log2(n);
    var more := if r > 0 then [Raw(n, r)] else [];
    HeadBits(c, Sym(16 * r), more, rest);
    assert EobTokens(n) == [Sym(16 * r)] + more;
    AppendedBits(c, n, r);
  }

  lemma AppendedBits(c: CTable, n: nat, r: nat)
    requires IsCTable(c)
    ensures AllBits(c, if r > 0 then [Raw(n, r)] else []) == BitsOf(n, r)
  {
    hide BitsOf, AllBits;
    NoTokens(c);
    NoBits(n);
    AllBitsSnoc(c, [], Raw(n, r));
    assert [] + [Raw(n, r)] == [Raw(n, r)];
  }

  lemma NoBits(v: int)
    ensures BitsOf(v, 0) == []
  {
  }

  lemma ChunkBits(c: CTable, v: seq<int>, t: seq<nat>, k: nat, s: nat, rest: seq<int>)
    requires IsCTable(c) && k <= s < |t| == |v|
    ensures AllBits(c, Chunk(v, t, k, s)) + rest ==
            TokenBits(c, Sym(if t[s] == 1 then 16 * Zeros(t, k, s) + 1 else 0xF0)) +
            ((if t[s] == 1 then BitsOf(SignBit(v[s]), 1) else []) + (Corr(t, k, s) + rest))
  {
    hide BitsOf, Zeros, Corr;
    var corr := RawBits(Corr(t, k, s));
    RawBitsAre(c, Corr(t, k, s));
    if t[s] == 1 {
      var head, sign := Sym(16 * Zeros(t, k, s) + 1), Raw(SignBit(v[s]), 1);
      assert Chunk(v, t, k, s) == [head] + ([sign] + corr);
      HeadBits(c, head, [sign] + corr, rest);
      HeadBits(c, sign, corr, rest);
    } else {
      HeadBits(c, Sym(0xF0), corr, rest);
      assert [] + (Corr(t, k, s) + rest) == Corr(t, k, s) + rest;
    }
  }

  lemma CodedSplit(c: CTable, s: seq<Token>, t: seq<Token>)
    requires IsCTable(c) && Coded(c, s + t)
    ensures Coded(c, s) && Coded(c, t)
  {
    forall i | 0 <= i < |s| && s[i].Sym? ensures s[i].s < 256 && c.si[s[i].s] > 0 {
      assert (s + t)[i] == s[i];
    }
    forall i | 0 <= i < |t| && t[i].Sym? ensures t[i].s < 256 && c.si[t[i].s] > 0 {
      assert (s + t)[|s| + i] == t[i];
    }
  }

  lemma CodedHead(c: CTable, ks: seq<Token>)
    requires IsCTable(c) && Coded(c, ks)
    ensures |ks| > 0 && ks[0].Sym? ==> ks[0].s < 256 && c.si[ks[0].s] > 0
  {
  }

  lemma SignIs(v: int, bit: int)
    requires bit == SignBit(v) % Pow2(1)
    ensures bit == 1 <==> v >= 0
  {
  }

  // First scans ---------------------------------------------------------------------------------

  ghost function FirstBits(c: CTable, v: seq<int>, b: Band, k: nat, n: nat, rest: seq<int>): seq<int>
    requires |v| == 64 && IsBand(b) && IsCTable(c)
  {
    AllBits(c, FirstCodes(Sent(v, b.al), k, b.se)) + EndBits(c, v, b, n, rest)
  }

  /** k is the start of a run of zeros, and everything to come has a code word. */
  ghost predicate FirstAhead(c: CTable, v: seq<int>, b: Band, k: nat, n: nat)
    requires |v| == 64 && IsBand(b) && IsCTable(c)
  {
    && b.ss <= k && b.first && n <= 0x7FFF && (n > 0 <==> HasTail(v, b)) && (k > b.se ==> n == 0)
    && Coded(c, FirstCodes(Sent(v, b.al), k, b.se)) && (n > 0 ==> Coded(c, EobTokens(n)))
  }

  ghost function FirstHead(v: seq<int>, b: Band, k: nat, n: nat): nat
    requires |v| == 64 && IsBand(b) && k <= b.se
  {
    var u := Sent(v, b.al);
    var next := Next(u, k, b.se);
    if next > b.se then if n > 0 then 16 * Log2(n) else 0
    else if next - k > 15 then 0xF0
    else 16 * (next - k) + BitLength(Abs(u[next]))
  }

  ghost function AfterFirst(c: CTable, v: seq<int>, b: Band, k: nat, n: nat, rest: seq<int>): seq<int>
    requires |v| == 64 && IsBand(b) && IsCTable(c) && k <= b.se
  {
    var u := Sent(v, b.al);
    var next := Next(u, k, b.se);
    if next > b.se then (if n > 0 then BitsOf(n, Log2(n)) else []) + rest
    else if next - k > 15 then FirstBits(c, v, b, k + 16, n, rest)
    else BitsOf(Complemented(u[next]), BitLength(Abs(u[next]))) + FirstBits(c, v, b, next + 1, n, rest)
  }

  /** What the next symbol of a first scan is and what it announces. */
  lemma FirstHeadIs(c: CTable, v: seq<int>, b: Band, k: nat, n: nat, rest: seq<int>)
    requires |v| == 64 && IsBand(b) && IsCTable(c) && k <= b.se && FirstAhead(c, v, b, k, n) && Expressible(v, b)
    ensures var h, u := FirstHead(v, b, k, n), Sent(v, b.al); var next := Next(u, k, b.se);
      && h < 256 && c.si[h] > 0
      && FirstBits(c, v, b, k, n, rest) == TokenBits(c, Sym(h)) + AfterFirst(c, v, b, k, n, rest)
      && (h % 16 != 0 ==>
            && k <= next <= b.se && next == k + h / 16 && u[next] != 0 && h % 16 == BitLength(Abs(u[next]))
            && FirstAhead(c, v, b, next + 1, n)
            && AfterFirst(c, v, b, k, n, rest) ==
               BitsOf(Complemented(u[next]), h % 16) + FirstBits(c, v, b, next + 1, n, rest))
      && (h % 16 == 0 && h / 16 == 15 ==>
            k + 16 <= next <= b.se && FirstAhead(c, v, b, k + 16, n)
            && AfterFirst(c, v, b, k, n, rest) == FirstBits(c, v, b, k + 16, n, rest))
      && (h % 16 == 0 && h / 16 != 15 ==>
            && next > b.se && n > 0 && n == Pow2(h / 16) + n % Pow2(h / 16) && h / 16 <= 14 && (h / 16 == 0 ==> n == 1)
            && AfterFirst(c, v, b, k, n, rest) == BitsOf(n, h / 16) + rest)
  {
    hide Sent, FirstBits, FirstAhead, BitLength, Log2, BitsOf, TokenBits, IsCTable, Expressible, Pow2, Complemented;
    var next := Next(Sent(v, b.al), k, b.se);
    if next > b.se {
      FirstRunHead(c, v, b, k, n, rest);
    } else if next - k > 15 {
      FirstZrlHead(c, v, b, k, n, rest);
    } else {
      FirstValueHead(c, v, b, k, n, rest);
    }
  }

  lemma FirstRunHead(c: CTable, v: seq<int>, b: Band, k: nat, n: nat, rest: seq<int>)
    requires |v| == 64 && IsBand(b) && IsCTable(c) && k <= b.se && FirstAhead(c, v, b, k, n)
    requires Next(Sent(v, b.al), k, b.se) > b.se
    ensures var h := FirstHead(v, b, k, n);
      && h < 256 && c.si[h] > 0
      && FirstBits(c, v, b, k, n, rest) == TokenBits(c, Sym(h)) + AfterFirst(c, v, b, k, n, rest)
      && h % 16 == 0 && h / 16 == Log2(n) && n > 0 && n == Pow2(h / 16) + n % Pow2(h / 16) && h / 16 <= 14
      && (h / 16 == 0 ==> n == 1) && AfterFirst(c, v, b, k, n, rest) == BitsOf(n, h / 16) + rest
  {
    hide Pow2, Shifted, TokenBits, BitsOf, IsCTable, Log2;
    assert Sent(v, b.al)[b.se] == 0;
    SentZero(v, b.al, b.se);
    assert FirstCodes(Sent(v, b.al), k, b.se) == [];
    assert AllBits(c, []) == [];
    assert EobTokens(n)[0] == Sym(16 * Log2(n));
    Log2Bound(n);
    RunIs(n);
    EobBits(c, n, rest);
    assert [] + rest == rest;
    assert [] + EndBits(c, v, b, n, rest) == EndBits(c, v, b, n, rest);
  }

  lemma SentZero(v: seq<int>, al: nat, k: nat)
    requires k < |v|
    ensures Sent(v, al)[k] == 0 <==> Shifted(v[k], al) == 0
    ensures Abs(Sent(v, al)[k]) == Shifted(v[k], al)
  {
    hide Pow2;
  }

  lemma FirstZrlHead(c: CTable, v: seq<int>, b: Band, k: nat, n: nat, rest: seq<int>)
    requires |v| == 64 && IsBand(b) && IsCTable(c) && k <= b.se && FirstAhead(c, v, b, k, n)
    requires k + 15 < Next(Sent(v, b.al), k, b.se) <= b.se
    ensures FirstHead(v, b, k, n) == 0xF0 && c.si[0xF0] > 0 && FirstAhead(c, v, b, k + 16, n)
    ensures FirstBits(c, v, b, k, n, rest) == TokenBits(c, Sym(0xF0)) + FirstBits(c, v, b, k + 16, n, rest)
  {
    hide TokenBits, AllBits, IsCTable, EndBits, Sent, Coded, HasTail;
    var more := FirstCodes(Sent(v, b.al), k + 16, b.se);
    assert FirstCodes(Sent(v, b.al), k, b.se) == [Sym(0xF0)] + more;
    HeadBits(c, Sym(0xF0), more, EndBits(c, v, b, n, rest));
    CodedHead(c, [Sym(0xF0)] + more);
    CodedSplit(c, [Sym(0xF0)], more);
  }

  lemma FirstValueHead(c: CTable, v: seq<int>, b: Band, k: nat, n: nat, rest: seq<int>)
    requires |v| == 64 && IsBand(b) && IsCTable(c) && k <= b.se && FirstAhead(c, v, b, k, n) && Expressible(v, b)
    requires k <= Next(Sent(v, b.al), k, b.se) <= b.se && Next(Sent(v, b.al), k, b.se) <= k + 15
    ensures var h, u := FirstHead(v, b, k, n), Sent(v, b.al); var next := Next(u, k, b.se);
      && h < 256 && c.si[h] > 0
      && FirstBits(c, v, b, k, n, rest) == TokenBits(c, Sym(h)) + AfterFirst(c, v, b, k, n, rest)
      && h / 16 == next - k && 0 < h % 16 == BitLength(Abs(u[next])) && FirstAhead(c, v, b, next + 1, n)
  {
    hide TokenBits, AllBits, IsCTable, EndBits, Sent, Coded, HasTail, BitsOf, BitLength, Expressible, FirstCodes;
    hide Shifted;
    hide ValueTokens, Complemented;
    var u := Sent(v, b.al);
    var next := Next(u, k, b.se);
    NextValue(v, b, next);
    FirstUnfold(u, k, b.se);
    ValueAhead(c, next - k, u[next], FirstCodes(u, next + 1, b.se), EndBits(c, v, b, n, rest));
  }

  lemma NextValue(v: seq<int>, b: Band, k: nat)
    requires IsBand(b) && b.first && Expressible(v, b) && b.ss <= k <= b.se && Sent(v, b.al)[k] != 0
    ensures |v| == 64 && 0 < BitLength(Abs(Sent(v, b.al)[k])) <= MAX_COEF_BITS && (k == b.se ==> !HasTail(v, b))
  {
    hide Sent, Shifted;
    SentZero(v, b.al, k);
  }

  lemma FirstUnfold(u: seq<int>, k: nat, se: nat)
    requires k <= se < |u| && k <= Next(u, k, se) <= se && Next(u, k, se) <= k + 15
    ensures var n := Next(u, k, se); FirstCodes(u, k, se) == ValueTokens(n - k, u[n]) + FirstCodes(u, n + 1, se)
  {
  }

  /** The bits of a value, and that they have code words. */
  lemma ValueAhead(c: CTable, r: nat, x: int, more: seq<Token>, rest: seq<int>)
    requires IsCTable(c) && BitLength(Abs(x)) > 0 && Coded(c, ValueTokens(r, x) + more)
    ensures var n := BitLength(Abs(x));
      && 16 * r + n < 256 && c.si[16 * r + n] > 0 && Coded(c, more)
      && AllBits(c, ValueTokens(r, x) + more) + rest ==
         TokenBits(c, Sym(16 * r + n)) + (BitsOf(Complemented(x), n) + (AllBits(c, more) + rest))
  {
    hide TokenBits, AllBits, IsCTable, Coded, BitsOf, BitLength, Complemented;
    var head, raw := Sym(16 * r + BitLength(Abs(x))), Raw(Complemented(x), BitLength(Abs(x)));
    assert ValueTokens(r, x) == [head] + [raw];
    assert ValueTokens(r, x) + more == [head] + ([raw] + more);
    HeadBits(c, head, [raw] + more, rest);
    HeadBits(c, raw, more, rest);
    RawTokenIs(c, raw);
    CodedHead(c, [head] + ([raw] + more));
    CodedSplit(c, ValueTokens(r, x), more);
  }

  lemma RawTokenIs(c: CTable, k: Token)
    requires IsCTable(c) && k.Raw?
    ensures TokenBits(c, k) == BitsOf(k.v, k.n)
  {
  }

  lemma FirstOver(c: CTable, v: seq<int>, b: Band, k: nat, n: nat, rest: seq<int>)
    requires |v| == 64 && IsBand(b) && IsCTable(c) && k == b.se + 1 && FirstAhead(c, v, b, k, n)
    ensures n == 0 && FirstBits(c, v, b, k, n, rest) == rest
  {
    hide Shifted, EobTokens;
    assert AllBits(c, []) == [];
    assert [] + rest == rest;
  }

  /** A stretch of zeros needs nothing. */
  lemma {:induction false} FirstZeros(z: seq<int>, z0: seq<int>, v: seq<int>, b: Band, k: nat, end: nat)
    requires Refining(z, z0, v, b, k) && b.ss <= k <= end <= b.se + 1 <= 64
    requires forall i :: k <= i < end ==> Sent(v, b.al)[i] == 0
    ensures Refining(z, z0, v, b, end)
    decreases end - k
  {
    if k < end {
      SentZero(v, b.al, k);
      RefineZero(z, z0, v, b, k);
      FirstZeros(z, z0, v, b, k + 1, end);
    }
  }

  /** What was stored does no harm. */
  lemma FirstRetry(z: seq<int>, z0: seq<int>, v: seq<int>, b: Band, k: nat)
    requires Refining(z, z0, v, b, k) && b.first
    ensures Refining(z, z0, v, b, b.ss)
  {
    hide Trunc;
  }

  lemma Rescaled(v: seq<int>, al: nat, k: nat)
    requires k < |v|
    ensures Sent(v, al)[k] * Pow2(al) == Trunc(v[k], al)
  {
    hide Pow2, Shifted;
    assert Sent(v, al)[k] == Signed(v[k], Shifted(v[k], al));
    SignedProduct(v[k], Shifted(v[k], al), Pow2(al));
  }

  /** The stream at the start of a block of a first scan. */
  lemma StartFirstItem(c: CTable, v: seq<int>, b: Band, kind: Kind, run: nat, rest: seq<int>)
    requires b.first && |v| == 64 && IsBand(b) && IsCTable(c) && OkItem(v, b, kind, run)
    requires Coded(c, ItemTokens(v, b, kind))
    ensures run > 0 <==> kind.Follow?
    ensures var bits := AllBits(c, ItemTokens(v, b, kind)) + rest;
      match kind
      case Lead(n) => FirstAhead(c, v, b, b.ss, n) && FirstBits(c, v, b, b.ss, n, rest) == bits
      case Follow => bits == rest && forall i :: b.ss <= i < b.se + 1 ==> Sent(v, b.al)[i] == 0
    ensures RunAfter(run, kind) == match kind case Lead(n) => (if n > 0 then n - 1 else 0) case Follow => run - 1
  {
    hide Shifted, EobTokens, Coded, AllBits, HasTail, FirstCodes, IsCTable, Sent;
    assert RawBits([]) == [];
    match kind {
      case Lead(n) =>
        if n > 0 {
          assert EobTokens(n) + RawBits([]) == EobTokens(n);
          SplitBits(c, CodesOf(v, b), EobTokens(n), rest);
          CodedSplit(c, CodesOf(v, b), EobTokens(n));
          assert [] + rest == rest;
        } else {
          assert CodesOf(v, b) + [] == CodesOf(v, b);
        }
      case Follow =>
        assert AllBits(c, []) == [] by { NoTokens(c); }
        assert [] + rest == rest;
        NoCodesMeansTail(v, b);
        forall i | b.ss <= i < b.se + 1 ensures Sent(v, b.al)[i] == 0 {
          SentZero(v, b.al, i);
        }
    }
  }

  // Undo list -------------------------------------------------------------------------------

  ghost predicate Noted(notes: seq<nat>, num: nat, order: seq<nat>, ks: seq<nat>, v: seq<int>, b: Band, k: nat) {
    && IsOrder(order) && |notes| == 64 && num == |ks| && num + b.ss <= k && Recorded(ks, v, b, k)
    && forall i :: 0 <= i < |ks| && i < 64 && ks[i] < 64 ==> notes[i] == order[ks[i]]
  }

  lemma NotedUntil(notes: seq<nat>, num: nat, order: seq<nat>, ks: seq<nat>, v: seq<int>, b: Band, k: nat, k': nat)
    requires Noted(notes, num, order, ks, v, b, k) && k <= k' && b.se <= 63
    requires |v| == 64 && forall j :: k <= j < k' && j < 64 ==> Shifted(v[j], b.al) != 1
    ensures Noted(notes, num, order, ks, v, b, k')
  {
    hide Shifted;
  }

  lemma NotedZero(notes: seq<nat>, num: nat, order: seq<nat>, ks: seq<nat>, v: seq<int>, b: Band, k: nat)
    requires Noted(notes, num, order, ks, v, b, k) && k <= b.se <= 63 && |v| == 64 && Shifted(v[k], b.al) == 0
    ensures Noted(notes, num, order, ks, v, b, k + 1)
  {
    hide Shifted;
  }

  lemma NotedRoom(notes: seq<nat>, num: nat, order: seq<nat>, ks: seq<nat>, v: seq<int>, b: Band, k: nat)
    requires Noted(notes, num, order, ks, v, b, k) && b.ss <= k <= b.se <= 63 && |v| == 64 && Shifted(v[k], b.al) == 1
    ensures num < 64 && Noted(notes[num := order[k]], num + 1, order, ks + [k], v, b, k + 1)
  {
    hide Shifted;
    forall j | b.ss <= j < k + 1 && j <= b.se && j < 64 && Shifted(v[j], b.al) == 1 ensures j in ks + [k] {
    }
  }

  lemma NewIs(z: seq<int>, z0: seq<int>, v: seq<int>, b: Band, k: nat, coef: int)
    requires Refining(z, z0, v, b, k) && b.ss <= k <= b.se <= 63 && Shifted(v[k], b.al) == 1 && !b.first
    requires coef == Signed(v[k], Pow2(b.al))
    ensures Refining(z[k := coef], z0, v, b, k + 1)
  {
    hide Pow2, Shifted, Trunc, Between;
    assert Between(z[k], v[k], b.al);
    BetweenZero(z[k], v[k], b.al);
    RefineNext(z, z0, v, b, k);
  }

  lemma NotedNone(notes: seq<nat>, order: seq<nat>, v: seq<int>, b: Band)
    requires |notes| == 64 && IsOrder(order) && |v| == 64
    ensures Noted(notes, 0, order, [], v, b, b.ss)
  {
  }

  lemma EndAfter(v: seq<int>, b: Band)
    requires |v| == 64 && IsBand(b)
    ensures CodesEnd(Magnitudes(v, b.al), b) > b.se ==> CodesEnd(Magnitudes(v, b.al), b) == b.se + 1
  {
  }

  lemma CodesOver(c: CTable, v: seq<int>, b: Band, k: nat, n: nat, rest: seq<int>)
    requires |v| == 64 && IsBand(b) && IsCTable(c) && k > b.se && CodeAhead(c, v, b, k, n)
    ensures k == CodesEnd(Magnitudes(v, b.al), b) && n == 0 && CodeBits(c, v, b, k, n, rest) == rest
  {
    hide Shifted, EobTokens;
    assert AllBits(c, []) == [];
    assert [] + rest == rest;
  }

  /** The stream at the start of a block. */
  lemma StartItem(c: CTable, v: seq<int>, b: Band, kind: Kind, run: nat, rest: seq<int>)
    requires !b.first
    requires |v| == 64 && IsBand(b) && IsCTable(c) && OkItem(v, b, kind, run) && Coded(c, ItemTokens(v, b, kind))
    ensures run > 0 <==> kind.Follow?
    ensures var bits := AllBits(c, ItemTokens(v, b, kind)) + rest;
      match kind
      case Lead(n) => CodeAhead(c, v, b, b.ss, n) && CodeBits(c, v, b, b.ss, n, rest) == bits
      case Follow => CodesEnd(Magnitudes(v, b.al), b) == b.ss && bits == TailOf(v, b) + rest
    ensures RunAfter(run, kind) == match kind case Lead(n) => (if n > 0 then n - 1 else 0) case Follow => run - 1
  {
    hide Shifted, EobTokens, TailOf, Coded, AllBits;
    match kind {
      case Lead(n) =>
        if n > 0 {
          TailIsBits(v, b);
          RawBitsAre(c, TailOf(v, b));
          SplitBits(c, CodesOf(v, b), EobTokens(n) + RawBits(TailOf(v, b)), rest);
          SplitBits(c, EobTokens(n), RawBits(TailOf(v, b)), rest);
          CodedSplit(c, CodesOf(v, b), EobTokens(n) + RawBits(TailOf(v, b)));
          CodedSplit(c, EobTokens(n), RawBits(TailOf(v, b)));
        } else {
          assert CodesOf(v, b) + [] == CodesOf(v, b);
        }
      case Follow =>
        TailIsBits(v, b);
        RawBitsAre(c, TailOf(v, b));
        NoCodesMeansTail(v, b);
    }
  }

  lemma TailIsBits(v: seq<int>, b: Band)
    requires |v| == 64 && IsBand(b)
    ensures IsBits(TailOf(v, b))
  {
  }

  lemma NoNewAfter(v: seq<int>, b: Band)
    requires !b.first
    requires |v| == 64 && IsBand(b)
    ensures var t := Magnitudes(v, b.al);
      && TailOf(v, b) == Corr(t, CodesEnd(t, b), b.se + 1)
      && forall i :: CodesEnd(t, b) <= i <= b.se ==> t[i] == Shifted(v[i], b.al) && t[i] != 1
  {
    hide Shifted, Corr;
    var t := Magnitudes(v, b.al);
    forall i | CodesEnd(t, b) <= i <= b.se ensures t[i] == Shifted(v[i], b.al) && t[i] != 1 {
      NotNewPast(t, b, i);
    }
  }

  lemma NotNewPast(t: seq<nat>, b: Band, i: nat)
    requires |t| == 64 && IsBand(b) && CodesEnd(t, b) <= i <= b.se
    ensures t[i] != 1
  {
  }

  lemma LookAt(z: seq<int>, z0: seq<int>, v: seq<int>, b: Band, k: nat)
    requires Refining(z, z0, v, b, k) && b.ss <= k <= b.se <= 63 && !b.first
    ensures |z| == |v| == 64 && (z[k] != 0 <==> Shifted(v[k], b.al) > 1)
  {
    hide Pow2, Shifted, Trunc;
    BetweenZero(z[k], v[k], b.al);
  }

  lemma SpanEmpty(t: seq<nat>, k: nat, stop: nat)
    requires k <= |t| && stop <= |t|
    ensures k == stop ==> Zeros(t, k, stop) == 0 && Corr(t, k, stop) == []
  {
  }

  lemma SpanStep(t: seq<nat>, k: nat, stop: nat)
    requires k < stop <= |t|
    ensures Zeros(t, k, stop) == Zeros(t, k + 1, stop) + if t[k] == 0 then 1 else 0
    ensures Corr(t, k, stop) == (if t[k] > 1 then [t[k] % 2] else []) + Corr(t, k + 1, stop)
  {
    ZerosSplit(t, k, k + 1, stop);
    assert Zeros(t, k, k) == 0 && Corr(t, k, k) == [];
  }
}
