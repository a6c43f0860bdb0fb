/** The arithmetic entropy encoder object and its in-place operations. */
module ArithEncoder {
  import opened Numbers
  import opened ArithTable
  import opened IntervalCoder
  import opened ByteStuffing
  import opened ArithRegisters

  class Encoder {
    var c: int
    var a: int
    var sc: int
    var zc: int
    var ct: int
    var buffer: int
    var stats: Stats
    /** The destination: every byte written so far. */
    var out: seq<int>

    /** Bytes written before this segment, data bytes of the segment before stuffing, and
        the decisions coded in the segment. */
    ghost var prior: seq<int>
    ghost var data: seq<int>
    ghost var coded: seq<Decision>

    ghost function Regs(): Registers
      reads this
    {
      Registers(c, a, sc, zc, ct, buffer)
    }

    ghost predicate Written()
      reads this
    {
      out == prior + Stuff(data)
    }

    /** The registers denote exactly the interval of the decisions coded so far. */
    ghost predicate Valid()
      reads this
    {
      && Binary(coded) && stats == Run(coded).stats
      && Denote(Regs(), data, Run(coded).iv) && 1 <= ct
      && Written()
    }

    /** start_pass: reset the registers and statistics, keep the destination. */
    constructor (dest: seq<int>)
      ensures Valid() && coded == [] && out == prior == dest
    {
      hide Meaning;
      c, a, sc, zc, ct, buffer := 0, 0x10000, 0, 0, 11, -1;
      stats := map[];
      out, prior, data, coded := dest, dest, [], [];
      ResetDenotesWhole();
    }

    method EmitByte(val: int)
      modifies `out
      ensures out == old(out) + [val]
    {
      out := out + [val];
    }

    /** Writes a data byte, with a stuffed zero after 0xFF. */
    method EmitData(val: int)
      requires Written()
      modifies `out, `data
      ensures Written() && data == old(data) + [val]
    {
      StuffSnoc(data, val);
      EmitByte(val);
      if val == 0xFF {
        EmitByte(0);
      }
      data := data + [val];
    }

    /** Writes the pending zero bytes. */
    method EmitZeros()
      requires Written() && 0 <= zc
      modifies `out, `data, `zc
      ensures Written() && zc == 0 && data == old(data) + Fill(0, old(zc))
    {
      while zc > 0
        invariant Written() && 0 <= zc <= old(zc)
        invariant data == old(data) + Fill(0, old(zc) - zc)
      {
        EmitData(0);
        zc := zc - 1;
      }
    }

    /** Writes the stacked 0xFF bytes. */
    method EmitStack()
      requires Written() && 0 <= sc
      modifies `out, `data, `sc
      ensures Written() && sc == 0 && data == old(data) + Fill(255, old(sc))
    {
      while sc > 0
        invariant Written() && 0 <= sc <= old(sc)
        invariant data == old(data) + Fill(255, old(sc) - sc)
      {
        EmitData(0xFF);
        sc := sc - 1;
      }
    }

    /** The carry path: the buffered byte goes out incremented, stacked 0xFFs become zeros. */
    method EmitCarried()
      requires Written() && 0 <= zc && 0 <= sc && 0 <= buffer
      modifies `out, `data, `zc, `sc
      ensures Written() && data == old(data) + Fill(0, old(zc)) + [buffer + 1]
      ensures zc == old(sc) && sc == 0
    {
      hide Stuff;
      if buffer >= 0 {
        EmitZeros();
        EmitData(buffer + 1);
      }
      zc := zc + sc;
      sc := 0;
    }

    /** The settled path: nothing pending can change any more. */
    method EmitSettled()
      requires Written() && 0 <= zc && 0 <= sc && -1 <= buffer <= 0xFE && (buffer < 0 ==> zc == 0)
      modifies `out, `data, `zc, `sc
      ensures Written() && sc == 0 && (data, zc) == Settled(old(data), old(zc), buffer, old(sc))
    {
      if buffer == 0 {
        zc := zc + 1;
      } else if buffer >= 0 {
        EmitZeros();
        EmitData(buffer);
      }
      if sc > 0 {
        EmitZeros();
        EmitStack();
      }
    }

    /** A byte of C is complete. */
    method OutputByte(ghost iv: Interval)
      requires Written() && ct == 0 && Denote(Regs(), data, iv)
      modifies `c, `ct, `sc, `zc, `buffer, `out, `data
      ensures Written() && (Regs(), data) == Byte(old(Regs()), old(data))
      ensures ct == 8 && Denote(Regs(), data, iv)
    {
      hide Meaning, Pending, Settled;
      ByteDenotes(Regs(), data, iv);
      var temp := c / 0x80000;
      if temp > 0xFF {
        EmitCarried();
        buffer := temp % 256;
      } else if temp == 0xFF {
        sc := sc + 1;
      } else {
        EmitSettled();
        buffer := temp % 256;
      }
      c := c % 0x80000;
      ct := ct + 8;
    }

    /** Renormalization and data output (section D.1.6). */
    method Renormalize(ghost iv0: Interval)
      requires Written() && 1 <= ct && Denote(Regs(), data, iv0)
      modifies `c, `a, `ct, `sc, `zc, `buffer, `out, `data
      ensures Written() && 1 <= ct && Denote(Regs(), data, IntervalCoder.Renormalize(iv0))
    {
      hide Meaning;
      ghost var iv := iv0;
      while a < 0x8000
        invariant Written() && 1 <= ct && Denote(Regs(), data, iv)
        invariant IntervalCoder.Renormalize(iv) == IntervalCoder.Renormalize(iv0)
        decreases 0x8000 - a
      {
        ShiftDenotes(Regs(), data, iv);
        iv := Double(iv);
        a := a * 2;
        c := c * 2;
        ct := ct - 1;
        if ct == 0 {
          OutputByte(iv);
        }
      }
    }

    /** arith_encode: narrow, adapt the bin, then renormalize. */
    method Encode(bin: Bin, bit: int)
      requires Valid() && 0 <= bit <= 1
      modifies this
      ensures Valid() && coded == old(coded) + [Decision(bin, bit)] && prior == old(prior)
    {
      hide Meaning, Lookup, Run;
      ghost var k := Run(coded);
      ghost var before := Regs();
      RunSnoc(coded, Decision(bin, bit));
      var sv := Fetch(stats, bin);
      var row := Packed(Lookup(sv % 128));
      var qe, nl, nm := row / 0x10000, row % 256, row / 256 % 256;

      coded := coded + [Decision(bin, bit)];
      ghost var iv := Narrow(k.iv, sv, bit);
      a := a - qe;
      if bit != sv / 128 {
        if a >= qe {
          c := c + a;
          a := qe;
        }
        stats := stats[bin := Transit(sv, nl)];
      } else {
        if a >= 0x8000 {
          NarrowDenotes(before, data, k.iv, sv, bit, Regs());
          return;
        }
        if a < qe {
          c := c + a;
          a := qe;
        }
        stats := stats[bin := Transit(sv, nm)];
      }
      NarrowDenotes(before, data, k.iv, sv, bit, Regs());
      assert a < 0x8000;  // so the renormalization loop runs at least once
      Renormalize(iv);
    }

    /** finish_pass: pick the point with the most trailing zeros and write what is left.
        The segment's data spells the final interval, and no shorter code does. */
    method Finish()
      requires Valid()
      modifies `c, `sc, `zc, `out, `data
      ensures Written() && Trimmed(data) && Spells(data, Run(coded).iv)
      ensures forall other :: IsBytes(other) && Spells(other, Run(coded).iv) ==> |data| <= |other|
    {
      hide Meaning, Pow2, Run, Spells, Ending;
      ghost var iv, r, data0 := Run(coded).iv, Regs(), data;
      ghost var point := Pick(c, a);
      PickInside(c, a);
      ShiftedPick(r, data, iv, point);
      EndingSpells(r, data, iv, point);
      forall other | IsBytes(other) && Spells(other, iv)
        ensures |Ending(r, point * Pow2(r.ct), data0)| <= |other|
      {
        EndingIsShortest(r, data, iv, other);
      }

      var temp := (a - 1 + c) - (a - 1 + c) % 0x10000;
      c := if temp < c then temp + 0x8000 else temp;
      c := c * Pow2(ct);
      EndingIgnoresC(r, c, data);
      SendRemaining();
    }

    /** Send remaining bytes to output. */
    method SendRemaining()
      requires Written() && InRange(Regs()) && (c / 0x8000000 != 0 ==> 0 <= buffer)
      modifies `sc, `zc, `out, `data
      ensures Written() && data == Ending(old(Regs()), c, old(data))
    {
      hide Pending, Settled;
      if c / 0x8000000 != 0 {
        EmitCarried();
      } else {
        EmitSettled();
      }
      EmitLast(c / 0x80000 % 256, c / 0x800 % 256);
    }

    /** The last two bytes of C, only as far as they are not zero. */
    method EmitLast(x: int, y: int)
      requires Written() && 0 <= zc
      modifies `zc, `out, `data
      ensures Written()
      ensures data == old(data) + if x == 0 && y == 0 then []
                                  else if y == 0 then Fill(0, old(zc)) + [x]
                                  else Fill(0, old(zc)) + [x, y]
    {
      if x != 0 || y != 0 {
        EmitZeros();
        EmitData(x);
        if y != 0 {
          EmitData(y);
        }
      }
    }
  }
}
