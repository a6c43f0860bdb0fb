/** Entropy-coded data as bytes: 0xFF is followed by a stuffed zero, so that a marker can
    end the segment. */
module ByteStuffing {
  /** Stuffing: every data byte 0xFF is followed by a zero byte. */
  function Stuffed(b: int): (r: seq<int>) {
    if b == 0xFF then [b, 0] else [b]
  }

  function Stuff(data: seq<int>): seq<int> {
    if |data| == 0 then [] else Stuff(data[..|data| - 1]) + Stuffed(data[|data| - 1])
  }

  lemma StuffSnoc(data: seq<int>, b: int)
    ensures Stuff(data + [b]) == Stuff(data) + Stuffed(b)
  {
    assert (data + [b])[..|data|] == data;
  }

  lemma {:induction false} StuffConcat(s: seq<int>, t: seq<int>)
    ensures Stuff(s + t) == Stuff(s) + Stuff(t)
  {
    hide Stuff, Stuffed;
    if |t| == 0 {
      assert s + t == s;
      NothingStuffed(t);
    } else {
      var t', b := t[..|t| - 1], t[|t| - 1];
      assert t == t' + [b] && s + t == (s + t') + [b];
      StuffConcat(s, t');
      StuffSnoc(s + t', b);
      StuffSnoc(t', b);
    }
  }

  lemma NothingStuffed(data: seq<int>)
    ensures |data| == 0 ==> Stuff(data) == []
  {
  }

  lemma StuffHead(rest: seq<int>)
    requires |rest| > 0
    ensures |Stuff(rest)| == |Stuffed(rest[0])| + |Stuff(rest[1..])|
  {
    hide Stuff;
    assert rest == [rest[0]] + rest[1..];
    StuffConcat([rest[0]], rest[1..]);
    assert [] + [rest[0]] == [rest[0]];
    StuffSnoc([], rest[0]);
    NothingStuffed([]);
  }

  /** In stuffed data a 0xFF is always followed by 0x00: no marker can appear. */
  lemma {:induction false} StuffHidesMarkers(data: seq<int>, i: nat)
    requires i < |Stuff(data)| && Stuff(data)[i] == 0xFF
    ensures i + 1 < |Stuff(data)| && Stuff(data)[i + 1] == 0
  {
    var head := Stuff(data[..|data| - 1]);
    if i < |head| {
      StuffHidesMarkers(data[..|data| - 1], i);
    }
  }

  /** Stuffing adds one byte for every 0xFF, and nothing else. */
  lemma {:induction false} StuffLength(data: seq<int>)
    ensures |Stuff(data)| == |data| + multiset(data)[0xFF]
  {
    var n := |data| - 1;
    if n >= 0 {
      StuffLength(data[..n]);
      assert data == data[..n] + [data[n]];
    }
  }

  const EOI := 0xD9

  /** The byte source: past its end the source manager supplies fake EOI markers. */
  function SourceByte(src: seq<int>, pos: nat): int {
    if pos < |src| then src[pos] else if (pos - |src|) % 2 == 0 then 0xFF else EOI
  }

  /** A file that stops short reads like one that goes on with an EOI marker. */
  lemma EndsWithEoi(src: seq<int>, i: nat)
    ensures SourceByte(src + [0xFF, 0xD9], i) == SourceByte(src, i)
  {
    if i >= |src| + 2 {
      assert (i - |src|) % 2 == (i - |src| - 2) % 2;
    }
  }

  /** From pos on, the source holds the stuffed bytes of `rest`, then a marker: `fill`
      bytes 0xFF (all but one of them padding) and a marker code. */
  ghost predicate Holds(src: seq<int>, pos: nat, rest: seq<int>, fill: nat) {
    var n := |Stuff(rest)|;
    && (forall i :: 0 <= i < n ==> SourceByte(src, pos + i) == Stuff(rest)[i])
    && fill >= 1
    && (forall i :: pos + n <= i < pos + n + fill ==> SourceByte(src, i) == 0xFF)
    && 0 < SourceByte(src, pos + n + fill) < 0xFF
  }

  lemma HoldsHead(src: seq<int>, pos: nat, rest: seq<int>, fill: nat)
    requires Holds(src, pos, rest, fill) && |rest| > 0
    ensures SourceByte(src, pos) == rest[0]
    ensures rest[0] == 0xFF ==> SourceByte(src, pos + 1) == 0
    ensures Holds(src, pos + |Stuffed(rest[0])|, rest[1..], fill)
  {
    hide Stuff;
    var head, tail := Stuffed(rest[0]), Stuff(rest[1..]);
    assert rest == [rest[0]] + rest[1..];
    StuffConcat([rest[0]], rest[1..]);
    assert Stuff([rest[0]]) == head by {
      StuffSnoc([], rest[0]);
      NothingStuffed([]);
      assert [] + [rest[0]] == [rest[0]];
    }
    assert Stuff(rest) == head + tail;
    assert Stuff(rest)[0] == head[0] && SourceByte(src, pos + 0) == Stuff(rest)[0];
    if rest[0] == 0xFF {
      assert SourceByte(src, pos + 1) == Stuff(rest)[1];
    }
    forall i | 0 <= i < |tail| ensures SourceByte(src, pos + |head| + i) == tail[i] {
      assert SourceByte(src, pos + (|head| + i)) == Stuff(rest)[|head| + i];
    }
  }

  /** A finished segment followed by a marker is what a decoder expects to find. */
  lemma SegmentHolds(prior: seq<int>, data: seq<int>, marker: int, tail: seq<int>)
    requires 0 < marker < 0xFF
    ensures Holds(prior + Stuff(data) + [0xFF, marker] + tail, |prior|, data, 1)
  {
    var src := prior + Stuff(data) + [0xFF, marker] + tail;
    var n := |prior| + |Stuff(data)|;
    assert src[n] == 0xFF && src[n + 1] == marker;
  }
}
