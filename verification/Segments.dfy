/** A scan as a list of entropy-coded segments with restart markers between them. */
module Segments {
  import opened Numbers
  import opened Bits
  import opened ByteStuffing
  import opened BitReader

  const RST0 := 0xD0

  /** The data as bits, then up to 7 padding ones. */
  ghost predicate Padded(code: seq<int>, bits: seq<int>) {
    IsBytes(code) && exists n: nat :: n < 8 && ByteBits(code) == bits + Fill(1, n)
  }

  /** The last byte is filled up with ones, and there is no byte after it. */
  lemma PaddedWithOnes(code: seq<int>, bits: seq<int>)
    requires Padded(code, bits)
    ensures |bits| <= 8 * |code| < |bits| + 8 && ByteBits(code)[..|bits|] == bits
    ensures forall i :: |bits| <= i < 8 * |code| ==> ByteBits(code)[i] == 1
  {
    hide ByteBits;
    var n: nat :| n < 8 && ByteBits(code) == bits + Fill(1, n);
  }

  /** A finished segment and the restart marker after it. */
  ghost function Ended(code: seq<int>, k: nat): (r: seq<int>)
    ensures |r| == |Stuff(code)| + 2
  {
    Stuff(code) + [0xFF, RST0 + k % 8]
  }

  ghost function RestartBytes(codes: seq<seq<int>>): seq<int> {
    var n := |codes| - 1;
    if n < 0 then [] else RestartBytes(codes[..n]) + Ended(codes[n], n)
  }

  lemma RestartSnoc(codes: seq<seq<int>>, code: seq<int>)
    ensures RestartBytes(codes + [code]) == RestartBytes(codes) + Ended(code, |codes|)
  {
    hide Ended;
    assert (codes + [code])[..|codes|] == codes;
  }

  /** Where segment i starts, and where its terminating marker's code is. */
  ghost function StartOf(start: nat, codes: seq<seq<int>>, i: nat): nat
    requires i <= |codes|
  {
    start + |RestartBytes(codes[..i])|
  }

  ghost function EndOf(start: nat, codes: seq<seq<int>>, i: nat): nat
    requires i < |codes|
  {
    StartOf(start, codes, i) + |Stuff(codes[i])| + 1
  }

  /** The scan lies in the source: its segments, with restart markers counted modulo 8. */
  ghost predicate ScanAt(src: seq<int>, start: nat, codes: seq<seq<int>>) {
    forall i :: 0 <= i < |codes| ==> SegmentAt(src, start, codes, i)
  }

  ghost predicate SegmentAt(src: seq<int>, start: nat, codes: seq<seq<int>>, i: nat)
    requires i < |codes|
  {
    var e := EndOf(start, codes, i);
    && IsBytes(codes[i]) && InSource(src, StartOf(start, codes, i), codes[i], 0, e)
    && (i + 1 < |codes| ==> src[e] == RST0 + i % 8 && StartOf(start, codes, i + 1) == e + 1)
  }

  lemma {:induction false} RestartPrefix(codes: seq<seq<int>>, i: nat) returns (rest: seq<int>)
    requires i < |codes|
    ensures RestartBytes(codes) == RestartBytes(codes[..i]) + Ended(codes[i], i) + rest
  {
    hide Ended, RestartBytes;
    var n := |codes| - 1;
    assert codes == codes[..n] + [codes[n]];
    RestartSnoc(codes[..n], codes[n]);
    if i == n {
      rest := [];
    } else {
      var r := RestartPrefix(codes[..n], i);
      assert codes[..n][..i] == codes[..i];
      rest := r + Ended(codes[n], n);
    }
  }

  lemma SegmentStarts(start: nat, codes: seq<seq<int>>, i: nat)
    requires i < |codes|
    ensures StartOf(start, codes, i + 1) == EndOf(start, codes, i) + 1
  {
    hide Stuff;
    assert codes[..i + 1][..i] == codes[..i];
  }

  /** The bytes of a scan, up to the marker that ends it. */
  ghost function ScanBytes(prior: seq<int>, codes: seq<seq<int>>, last: seq<int>): seq<int> {
    prior + RestartBytes(codes) + Stuff(last)
  }

  /** What an encoder leaves behind is where a decoder looks for it. */
  lemma ScanHolds(prior: seq<int>, codes: seq<seq<int>>, last: seq<int>, marker: int, tail: seq<int>)
    requires 0 < marker < 0xFF && IsBytes(last) && forall i :: 0 <= i < |codes| ==> IsBytes(codes[i])
    ensures ScanAt(ScanBytes(prior, codes, last) + [0xFF, marker] + tail, |prior|, codes + [last])
  {
    hide SegmentAt, ScanBytes;
    var all := codes + [last];
    forall i | 0 <= i < |all|
      ensures SegmentAt(ScanBytes(prior, codes, last) + [0xFF, marker] + tail, |prior|, all, i)
    {
      if i < |codes| {
        InnerHolds(prior, codes, last, marker, tail, i);
      } else {
        LastHolds(prior, codes, last, marker, tail);
      }
    }
  }

  /** The restart markers of a scan, behind its segments: FF D0, FF D1, ..., FF D7, and from FF D0 again. */
  lemma RestartMarkers(prior: seq<int>, codes: seq<seq<int>>, last: seq<int>, i: nat)
    requires i < |codes|
    ensures var s, e := ScanBytes(prior, codes, last), EndOf(|prior|, codes, i);
      0 < e < |s| && s[e - 1] == 0xFF && s[e] == [0xD0, 0xD1, 0xD2, 0xD3, 0xD4, 0xD5, 0xD6, 0xD7][i % 8]
  {
    hide Stuff, RestartBytes;
    var rest := RestartPrefix(codes, i);
    var before := prior + RestartBytes(codes[..i]);
    assert ScanBytes(prior, codes, last) == before + Stuff(codes[i]) + [0xFF, RST0 + i % 8] + (rest + Stuff(last));
    assert |before| == StartOf(|prior|, codes, i);
  }

  lemma LastHolds(prior: seq<int>, codes: seq<seq<int>>, last: seq<int>, marker: int, tail: seq<int>)
    requires 0 < marker < 0xFF && IsBytes(last)
    ensures SegmentAt(ScanBytes(prior, codes, last) + [0xFF, marker] + tail, |prior|, codes + [last], |codes|)
  {
    hide Stuff, RestartBytes, InSource;
    var all, before := codes + [last], prior + RestartBytes(codes);
    assert all[..|codes|] == codes && all[|codes|] == last;
    SegmentPlaced(before, last, marker, tail);
    assert |before| == StartOf(|prior|, all, |codes|);
  }

  lemma InnerHolds(prior: seq<int>, codes: seq<seq<int>>, last: seq<int>, marker: int, tail: seq<int>, i: nat)
    requires 0 < marker < 0xFF && i < |codes| && IsBytes(codes[i])
    ensures SegmentAt(ScanBytes(prior, codes, last) + [0xFF, marker] + tail, |prior|, codes + [last], i)
  {
    hide Stuff, RestartBytes, InSource;
    var all, before := codes + [last], prior + RestartBytes(codes[..i]);
    assert all[..i] == codes[..i] && all[i] == codes[i];
    SegmentStarts(|prior|, all, i);
    var rest := RestartPrefix(codes, i);
    var after := rest + (Stuff(last) + [0xFF, marker] + tail);
    SegmentPlaced(before, codes[i], RST0 + i % 8, after);
    assert |before| == StartOf(|prior|, all, i);
    assert ScanBytes(prior, codes, last) + [0xFF, marker] + tail ==
           before + Stuff(codes[i]) + [0xFF, RST0 + i % 8] + after by {
      Regroup(prior, RestartBytes(codes[..i]), Stuff(codes[i]), [0xFF, RST0 + i % 8], rest, Stuff(last), [0xFF, marker],
              tail);
    }
  }

  lemma Regroup(a: seq<int>, b: seq<int>, c: seq<int>, d: seq<int>, e: seq<int>, f: seq<int>, g: seq<int>, h: seq<int>)
    ensures a + (b + (c + d) + e) + f + g + h == (a + b) + c + d + (e + (f + g + h))
  {
  }

  lemma SegmentPlaced(before: seq<int>, code: seq<int>, marker: int, after: seq<int>)
    requires 0 < marker < 0xFF
    ensures var src := before + Stuff(code) + [0xFF, marker] + after; var e := |before| + |Stuff(code)| + 1;
      InSource(src, |before|, code, 0, e) && src[e] == marker
  {
    hide Stuff;
    SegmentHolds(before, code, marker, after);
    assert code[0..] == code;
  }

  lemma ScanLonger(prior: seq<int>, codes: seq<seq<int>>, last: seq<int>)
    ensures |prior| <= |ScanBytes(prior, codes, last)|
  {
  }

  lemma ScanStarts(start: nat, codes: seq<seq<int>>, src: seq<int>, dest: seq<int>, marker: int, tail: seq<int>)
    requires |codes| > 0 && start == |dest| && 0 < marker < 0xFF && forall i :: 0 <= i < |codes| ==> IsBytes(codes[i])
    requires src == ScanBytes(dest, codes[..|codes| - 1], codes[|codes| - 1]) + [0xFF, marker] + tail
    ensures ScanAt(src, start, codes) && IsBytes(codes[0]) && InSource(src, start, codes[0], 0, EndOf(start, codes, 0))
  {
    hide InSource, ScanBytes, EndOf;
    var n := |codes| - 1;
    assert codes == codes[..n] + [codes[n]];
    ScanHolds(dest, codes[..n], codes[n], marker, tail);
    assert SegmentAt(src, start, codes, 0);
    assert StartOf(start, codes, 0) == start by { assert RestartBytes(codes[..0]) == []; }
  }
}
