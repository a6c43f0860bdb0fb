/** A whole entropy-coded segment: encode, finish, and decode what was written. */
module ArithSegment {
  import opened Numbers
  import opened IntervalCoder
  import opened ByteStuffing
  import opened ArithRegisters
  import ArithEncoder
  import ArithDecoder

  /** Encode a segment after the bytes in `dest`. */
  method EncodeSegment(ds: seq<Decision>, dest: seq<int>) returns (out: seq<int>, ghost code: seq<int>)
    requires Binary(ds)
    ensures out == dest + Stuff(code) && IsBytes(code) && Spells(code, Run(ds).iv)
  {
    hide Run, Spells, Denote;
    var e := new ArithEncoder.Encoder(dest);
    var i := 0;
    while i < |ds|
      invariant 0 <= i <= |ds| && e.Valid() && e.coded == ds[..i] && e.prior == dest
    {
      assert ds[..i + 1] == ds[..i] + [Decision(ds[i].bin, ds[i].bit)];
      e.Encode(ds[i].bin, ds[i].bit);
      i := i + 1;
    }
    assert ds[..i] == ds;
    e.Finish();
    out, code := e.out, e.data;
  }

  /** Decode as many bits as bins are asked for. */
  method DecodeSegment(src: seq<int>, at: nat, bins: seq<Bin>, ghost code: seq<int>) returns (bits: seq<int>)
    requires IsBytes(code) && Holds(src, at, code, 1)
    ensures bits == Decoding(code, bins).bits
  {
    hide Decoding;
    var d := new ArithDecoder.Decoder(src, at, code, 1);
    bits := [];
    var i := 0;
    DecodeNil(code);
    while i < |bins|
      invariant 0 <= i <= |bins| && d.Valid() && d.code == code && d.asked == bins[..i]
      invariant bits == Decoding(code, bins[..i]).bits
    {
      assert bins[..i + 1] == bins[..i] + [bins[i]];
      var bit := d.Decode(bins[i]);
      bits := bits + [bit];
      i := i + 1;
    }
    assert bins[..i] == bins;
  }

  /** The round trip on the objects themselves: any decisions, any bytes before the
      segment, any marker and bytes after it. */
  method CodeAndDecode(ds: seq<Decision>, dest: seq<int>, marker: int, tail: seq<int>)
    returns (bits: seq<int>)
    requires Binary(ds) && 0 < marker < 0xFF
    ensures bits == Bits(ds)
  {
    var out, code := EncodeSegment(ds, dest);
    SegmentHolds(dest, code, marker, tail);
    var bins := seq(|ds|, i requires 0 <= i < |ds| => ds[i].bin);
    bits := DecodeSegment(out + [0xFF, marker] + tail, |dest|, bins, code);
    DecodeInvertsRun(code, ds);
  }
}
