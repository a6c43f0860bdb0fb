/** The arithmetic entropy decoder object: C holds the distance of the code from the
    interval base together with the bits read ahead, with a floating cut point CT. */
module ArithDecoder {
  import opened Numbers
  import opened ArithTable
  import opened IntervalCoder
  import opened ByteStuffing

  /** The reader has taken m bytes of `code` (zeros after its end). */
  ghost predicate Aligned(src: seq<int>, pos: nat, marker: int, code: seq<int>, m: nat, fill: nat, end: nat) {
    if marker != 0 then m >= |code| && pos == end + 1 && marker == SourceByte(src, end)
    else m <= |code| && Holds(src, pos, code[m..], fill) && pos + |Stuff(code[m..])| + fill == end
  }

  /** C and CT hold the code's offset from the interval base, read m bytes deep. */
  ghost predicate Tracks(c: int, ct: int, m: nat, code: seq<int>, iv: Interval) {
    && m == Taken(iv.shifts) && ct == Spare(iv.shifts)
    && c == Val(Lead(code, m)) - iv.low * Pow2(Spare(iv.shifts))
  }

  lemma TracksBounds(c: int, ct: int, m: nat, code: seq<int>, iv: Interval)
    requires Tracks(c, ct, m, code, iv) && Spells(code, iv)
    ensures 0 <= ct && 0 <= c < iv.size * Pow2(ct)
  {
    var unit := Pow2(ct);
    assert (iv.low + iv.size) * unit == iv.low * unit + iv.size * unit;
  }

  lemma SpareRange(c: int, ct: int, m: nat, code: seq<int>, iv: Interval)
    requires Tracks(c, ct, m, code, iv)
    ensures 0 <= ct <= 7
  {
  }

  /** A shift that uses a bit already in C. */
  lemma TracksShift(c: int, ct: int, m: nat, code: seq<int>, iv: Interval)
    requires Tracks(c, ct, m, code, iv) && ct > 0
    ensures Tracks(c, ct - 1, m, code, Double(iv))
  {
    DoubleHalf(iv.low, ct);
  }

  /** A shift that needs the next byte. */
  lemma TracksFetch(c: int, m: nat, code: seq<int>, iv: Interval, b: int)
    requires Tracks(c, 0, m, code, iv) && b == (if m < |code| then code[m] else 0)
    ensures Tracks(c * 256 + b, 7, m + 1, code, Double(iv))
  {
    LeadSnoc(code, m);
    ValSnoc(Lead(code, m), b);
    assert Pow2(7) == 128 && Pow2(0) == 1;
  }

  /** The two initial bytes. */
  lemma StartFetch(m: nat, code: seq<int>, b: int)
    requires m < 2 && b == (if m < |code| then code[m] else 0)
    ensures Val(Lead(code, m)) * 256 + b == Val(Lead(code, m + 1))
    ensures Tracks(Val(Lead(code, 2)), 0, 2, code, WHOLE)
  {
    LeadSnoc(code, m);
    ValSnoc(Lead(code, m), b);
    assert Pow2(0) == 1;
  }

  lemma TracksDecides(c: int, ct: int, m: nat, code: seq<int>, iv: Interval, sv: int)
    requires Tracks(c, ct, m, code, iv) && 0x8000 <= iv.size && IsBin(sv)
    ensures 0 <= ct
    ensures var rest := iv.size - Qe(sv);
      var upper := c >= rest * Pow2(ct);
      var bit := Decide(code, iv, sv);
      && bit == (if upper == (rest >= Qe(sv)) then 1 - Mps(sv) else Mps(sv))
      && Narrow(iv, sv, bit) == (if upper then Interval(iv.low + rest, Qe(sv), iv.shifts)
                                 else Interval(iv.low, rest, iv.shifts))
      && Tracks(if upper then c - rest * Pow2(ct) else c, ct, m, code, Narrow(iv, sv, bit))
  {
    hide Lookup;
    var rest, unit := iv.size - Qe(sv), Pow2(Spare(iv.shifts));
    assert (iv.low + rest) * unit == iv.low * unit + rest * unit;
  }

  class Decoder {
    var c: int
    var a: int
    var ct: int
    var marker: int
    var stats: Stats
    const src: seq<int>
    var pos: nat

    /** The segment's code, how many of its bytes have been taken, the bins asked for so
        far, and the interval C is relative to (renormalization is put off). */
    ghost const code: seq<int>
    ghost var m: nat
    ghost var asked: seq<Bin>
    ghost var iv: Interval
    ghost var fill: nat
    ghost const end: nat

    ghost predicate Source()
      reads this
    {
      0 <= marker && IsBytes(code) && Aligned(src, pos, marker, code, m, fill, end)
    }

    /** Before the first request the two initial bytes are still to be read. */
    ghost predicate Starting()
      reads this
    {
      a == 0 && m < 2 && ct == 8 * m - 16 && c == Val(Lead(code, m))
    }

    ghost predicate Running()
      reads this
    {
      m >= 2 && a == iv.size && 1 <= a <= 0x10000 && Tracks(c, ct, m, code, iv)
    }

    /** Once renormalized, the interval is the one reached by decoding the bins asked for. */
    ghost predicate Valid()
      reads this
    {
      var k := Decoding(code, asked).coder;
      && Source() && stats == k.stats
      && if m == 0 then Starting() && asked == []
         else Running() && Renormalize(iv) == k.iv
    }

    /** start_pass: ct = -16 forces reading two initial bytes. */
    constructor (source: seq<int>, at: nat, ghost segment: seq<int>, ghost padding: nat)
      requires IsBytes(segment) && Holds(source, at, segment, padding)
      ensures Valid() && code == segment && asked == [] && src == source && end == at + |Stuff(segment)| + padding
    {
      c, a, ct, marker := 0, 0, -16, 0;
      stats := map[];
      src, pos := source, at;
      code, m, asked, iv, fill := segment, 0, [], WHOLE, padding;
      end := at + |Stuff(segment)| + padding;
      new;
      assert code[0..] == code;
    }

    method GetByte() returns (b: int)
      modifies `pos
      ensures b == SourceByte(src, old(pos)) && pos == old(pos) + 1
    {
      b := if pos < |src| then src[pos] else if (pos - |src|) % 2 == 0 then 0xFF else EOI;
      pos := pos + 1;
    }

    /** The next data byte: stuffing removed, endless zeros once a marker is reached. */
    method NextData() returns (data: int)
      requires Source()
      modifies `pos, `marker, `m
      ensures Source() && m == old(m) + 1
      ensures data == if old(m) < |code| then code[old(m)] else 0
    {
      hide Stuff;
      if marker != 0 {
        data := 0;
      } else {
        NothingStuffed(code[m..]);
        if m < |code| {
          HoldsHead(src, pos, code[m..], fill);
          StuffHead(code[m..]);
          assert code[m..][1..] == code[m + 1..];
        }
        data := GetByte();
        if data == 0xFF {
          data := GetByte();
          while data == 0xFF
            invariant m < |code| ==> data == 0 && pos == old(pos) + 2
            invariant m >= |code| ==> old(pos) + 2 <= pos <= old(pos) + fill + 1
            invariant m >= |code| ==> data == SourceByte(src, pos - 1)
            decreases old(pos) + fill + 1 - pos
            modifies `pos
          {
            data := GetByte();
          }
          if data == 0 {
            data := 0xFF;
          } else {
            marker := data;
            data := 0;
          }
        }
      }
      m := m + 1;
    }

    /** One renormalization shift, reading a byte when none of its bits is left. */
    method Shift()
      requires Source() && (Starting() || Running()) && a < 0x8000
      modifies `c, `a, `ct, `pos, `marker, `m, `iv
      ensures Source() && (Starting() || Running())
      ensures old(m) < 2 ==> m == old(m) + 1 && (m == 2 ==> Running() && iv == WHOLE)
      ensures old(m) >= 2 ==> m >= 2 && iv == Double(old(iv))
    {
      hide Decoding, Tracks, Val, Lead, Pow2, Aligned;
      ghost var m0, c0 := m, c;
      if m0 >= 2 {
        SpareRange(c, ct, m, code, iv);
      }
      ct := ct - 1;
      if ct < 0 {
        var data := NextData();
        if m0 >= 2 {
          TracksFetch(c0, m0, code, iv, data);
        } else {
          StartFetch(m0, code, data);
        }
        c := c * 256 + data;
        ct := ct + 8;
        if ct < 0 {
          ct := ct + 1;
          if ct == 0 {
            a := 0x8000;
          }
        }
      } else {
        TracksShift(c, ct + 1, m, code, iv);
      }
      a := a * 2;
      iv := if m0 >= 2 then Double(iv) else WHOLE;
    }

    /** Compare the code with the split point, update C, A and the bin, and return the
        decision. */
    method Compare(bin: Bin) returns (bit: int)
      requires Running() && 0x8000 <= a && IsBin(Fetch(stats, bin))
      modifies `c, `a, `iv, `stats
      ensures bit == Decide(code, old(iv), Fetch(old(stats), bin))
      ensures Running() && iv == Narrow(old(iv), Fetch(old(stats), bin), bit)
      ensures stats == Adapt(old(iv), old(stats), bin, bit)
    {
      hide Lookup, Tracks, Pow2, Decide, Packed, Transit;
      var sv := Fetch(stats, bin);
      var row := Packed(Lookup(sv % 128));
      var qe, nl, nm := row / 0x10000, row % 256, row / 256 % 256;
      TracksDecides(c, ct, m, code, iv, sv);
      ghost var chosen := Decide(code, iv, sv);

      var temp := a - qe;
      a := temp;
      temp := temp * Pow2(ct);
      var sense := sv / 128;
      if c >= temp {
        c := c - temp;
        if a < qe {
          a := qe;
          stats := stats[bin := Transit(sv, nm)];
        } else {
          a := qe;
          stats := stats[bin := Transit(sv, nl)];
          sense := 1 - sense;
        }
      } else if a < 0x8000 {
        if a < qe {
          stats := stats[bin := Transit(sv, nl)];
          sense := 1 - sense;
        } else {
          stats := stats[bin := Transit(sv, nm)];
        }
      }
      bit := sense;
      iv := Narrow(iv, sv, chosen);
    }

    /** arith_decode: on every stream the bit is the one the code determines, and C stays
        inside the interval. */
    method Decode(bin: Bin) returns (bit: int)
      requires Valid()
      modifies `c, `a, `ct, `pos, `marker, `m, `iv, `stats, `asked
      ensures Valid() && asked == old(asked) + [bin]
      ensures Decoding(code, asked).bits == Decoding(code, old(asked)).bits + [bit]
      ensures 0 <= ct && 0 <= c < a * Pow2(ct)
    {
      hide Decoding, Tracks, Pow2, Decide, Narrow, Adapt, Aligned, Lead, Val;
      ghost var k := Decoding(code, asked).coder;
      DecodeNil(code);
      DecodeSnoc(code, asked, bin);
      while a < 0x8000
        invariant Source() && (Starting() || (Running() && Renormalize(iv) == k.iv))
        invariant asked == [] && m < 2 ==> k.iv == WHOLE
        invariant Starting() ==> asked == []
        decreases if m < 2 then 2 - m else 0, 0x8000 - a
        modifies `c, `a, `ct, `pos, `marker, `m, `iv
      {
        Shift();
      }
      bit := Compare(bin);
      asked := asked + [bin];
      DecodeSpells(code, asked);
      RenormalizeSpells(code, iv);
      TracksBounds(c, ct, m, code, iv);
    }
  }
}
