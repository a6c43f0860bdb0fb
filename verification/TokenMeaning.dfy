/** What a stream of tokens says, read symbol by symbol as the decoding procedures of sections F.2.2, G.2.2 and
    G.2.3 of ITU-T T.81 read it, and that the encoders' tokens say what they should. */
module TokenMeaning {
  import opened Numbers
  import opened Tokens
  import opened Values
  import opened BandPlan
  import opened BandStream
  import opened SequentialPlan
  import opened SequentialEncoder

  /** Values read, the blocks of an end-of-band run still to come, and the tokens after. */
  datatype Read<T> = Failed | Read(values: seq<T>, run: nat, rest: seq<Token>)

  function Before<T>(values: seq<T>, r: Read<T>): Read<T> {
    if r.Failed? then Failed else Read(values + r.values, r.run, r.rest)
  }

  /** The n bits that follow, as a number. */
  function Number(ts: seq<Token>, n: nat): (x: int)
    ensures -1 <= x < Pow2(n)
  {
    if |ts| > 0 && ts[0].Raw? && ts[0].n == n then ts[0].v % Pow2(n) else -1
  }

  // Values ----------------------------------------------------------------------------------------

  /** A DC difference: its size, and so many bits. */
  function ReadDifference(ts: seq<Token>): Read<int> {
    if |ts| == 0 || !ts[0].Sym? then Failed
    else if ts[0].s == 0 then Read([0], 0, ts[1..])
    else if Number(ts[1..], ts[0].s) < 0 then Failed
    else Read([Extend(Number(ts[1..], ts[0].s), ts[0].s)], 0, ts[2..])
  }

  /** Coefficients k to se. A symbol is a run of zeros and a size; size 0 stands for 16 zeros, or for the end of
      2^run bands or more. */
  function ReadValues(ts: seq<Token>, k: nat, se: nat): Read<int>
    decreases se + 1 - k
  {
    if k > se then Read([], 0, ts)
    else if |ts| == 0 || !ts[0].Sym? then Failed
    else
      var r, n := ts[0].s / 16, ts[0].s % 16;
      if n > 0 then
        if k + r > se || Number(ts[1..], n) < 0 then Failed
        else Before(Fill(0, r) + [Extend(Number(ts[1..], n), n)], ReadValues(ts[2..], k + r + 1, se))
      else if r == 15 then if k + 15 > se then Failed else Before(Fill(0, 16), ReadValues(ts[1..], k + 16, se))
      else if r == 0 then Read(Fill(0, se + 1 - k), 0, ts[1..])
      else if Number(ts[1..], r) < 0 then Failed
      else Read(Fill(0, se + 1 - k), Pow2(r) + Number(ts[1..], r) - 1, ts[2..])
  }

  lemma SizeFits(r: nat, n: nat)
    requires n < 16
    ensures (16 * r + n) / 16 == r && (16 * r + n) % 16 == n
  {
  }

  lemma ValueSaid(r: nat, x: int, rest: seq<Token>)
    requires x != 0 && BitLength(Abs(x)) < 16
    ensures var n, ts := BitLength(Abs(x)), ValueTokens(r, x) + rest;
      && n > 0 && |ts| >= 2 && ts[0] == Sym(16 * r + n)
      && Number(ts[1..], n) >= 0 && Extend(Number(ts[1..], n), n) == x && ts[2..] == rest
  {
    hide BitLength, Extend, Pow2;
    ExtendInverts(x);
  }

  lemma NothingSaid(rest: seq<Token>)
    ensures ValueTokens(0, 0) + rest == [Sym(0)] + rest
  {
  }

  /** A DC difference is said. */
  lemma DifferenceSaid(x: int, rest: seq<Token>)
    requires BitLength(Abs(x)) < 16
    ensures ReadDifference(ValueTokens(0, x) + rest) == Read([x], 0, rest)
  {
    hide BitLength, Extend, ValueTokens, Number;
    if x != 0 {
      ValueSaid(0, x, rest);
    } else {
      NothingSaid(rest);
    }
  }

  lemma ReadsZeros(rest: seq<Token>, k: nat, se: nat)
    requires k + 15 <= se
    ensures ReadValues([Sym(0xF0)] + rest, k, se) == Before(Fill(0, 16), ReadValues(rest, k + 16, se))
  {
    hide Number, Extend, Pow2;
    assert ([Sym(0xF0)] + rest)[1..] == rest;
  }

  lemma ReadsEnd(rest: seq<Token>, k: nat, se: nat)
    requires k <= se
    ensures ReadValues([Sym(0)] + rest, k, se) == Read(Fill(0, se + 1 - k), 0, rest)
  {
    hide Number, Extend, Pow2;
    assert ([Sym(0)] + rest)[1..] == rest;
  }

  lemma ReadsValue(r: nat, x: int, rest: seq<Token>, k: nat, se: nat)
    requires k + r <= se && x != 0 && BitLength(Abs(x)) < 16
    ensures ReadValues(ValueTokens(r, x) + rest, k, se) == Before(Fill(0, r) + [x], ReadValues(rest, k + r + 1, se))
  {
    hide BitLength, Number, Extend, Pow2, ValueTokens;
    SizeFits(r, BitLength(Abs(x)));
    ValueSaid(r, x, rest);
  }

  lemma Regroup(a: seq<Token>, b: seq<Token>, c: seq<Token>)
    ensures a + b + c == a + (b + c)
  {
  }

  lemma ZerosThen(v: seq<int>, k: nat, n: nat, e: nat)
    requires k <= n <= e <= |v| && forall i :: k <= i < n ==> v[i] == 0
    ensures v[k..e] == Fill(0, n - k) + v[n..e]
    ensures n < e ==> v[k..e] == Fill(0, n - k) + [v[n]] + v[n + 1..e]
    ensures n == e ==> v[k..e] == Fill(0, n - k)
  {
  }

  lemma NothingLeft(ts: seq<Token>, rest: seq<Token>, v: seq<int>, se: nat)
    requires |ts| == 0 && se < |v|
    ensures ReadValues(ts + rest, se + 1, se) == Read(v[se + 1..se + 1], 0, rest)
  {
    assert ts + rest == rest;
  }

  /** Values whose size fits in four bits. */
  ghost predicate Short(v: seq<int>, k: nat, se: nat)
    requires se < |v|
  {
    forall j :: k <= j <= se ==> BitLength(Abs(v[j])) < 16
  }

  lemma ShortFrom(v: seq<int>, k: nat, n: nat, se: nat)
    requires k <= n <= se < |v| && Short(v, k, se)
    ensures Short(v, n + 1, se) && Short(v, n, se) && BitLength(Abs(v[n])) < 16
  {
    hide BitLength;
  }

  lemma AcParts(v: seq<int>, k: nat, n: nat, se: nat, rest: seq<Token>)
    requires k <= se < |v| && n == Next(v, k, se)
    ensures n > se ==> AcTokens(v, k, se) + rest == [Sym(0)] + rest
    ensures n <= se && n - k > 15 ==> AcTokens(v, k, se) + rest == [Sym(0xF0)] + (AcTokens(v, k + 16, se) + rest)
    ensures n <= se && n - k <= 15 ==>
      AcTokens(v, k, se) + rest == ValueTokens(n - k, v[n]) + (AcTokens(v, n + 1, se) + rest)
  {
    hide Next, ValueTokens;
    if n <= se && n - k > 15 {
      Regroup([Sym(0xF0)], AcTokens(v, k + 16, se), rest);
    } else if n <= se {
      Regroup(ValueTokens(n - k, v[n]), AcTokens(v, n + 1, se), rest);
    }
  }

  /** The AC coefficients of a block are said. */
  lemma {:induction false} BlockSaid(v: seq<int>, k: nat, se: nat, rest: seq<Token>)
    requires k <= se + 1 <= |v| && Short(v, k, se)
    ensures ReadValues(AcTokens(v, k, se) + rest, k, se) == Read(v[k..se + 1], 0, rest)
    decreases se + 1 - k
  {
    hide BitLength, ValueTokens, ReadValues, Next, AcTokens, Short;
    if k > se {
      NoneLeft(v, se);
      NothingLeft(AcTokens(v, k, se), rest, v, se);
    } else {
      var n := Next(v, k, se);
      AcParts(v, k, n, se, rest);
      if n > se {
        ReadsEnd(rest, k, se);
        ZerosThen(v, k, se + 1, se + 1);
      } else if n - k > 15 {
        ShortFrom(v, k, k + 16, se);
        BlockSaid(v, k + 16, se, rest);
        ReadsZeros(AcTokens(v, k + 16, se) + rest, k, se);
        ZerosThen(v, k, k + 16, se + 1);
      } else {
        ShortFrom(v, k, n, se);
        BlockSaid(v, n + 1, se, rest);
        ReadsValue(n - k, v[n], AcTokens(v, n + 1, se) + rest, k, se);
        ZerosThen(v, k, n, se + 1);
      }
    }
  }

  lemma NoneLeft(v: seq<int>, se: nat)
    requires se < |v|
    ensures AcTokens(v, se + 1, se) == []
  {
  }

  // Blocks of tagged tokens -----------------------------------------------------------------------------

  lemma TagSnoc(ts: seq<Tagged>, u: nat, ks: seq<Token>)
    requires |ks| > 0
    ensures var n := |ks| - 1; ts + Tag(u, ks) == ts + Tag(u, ks[..n]) + [Tagged(u, ks[n])]
  {
  }

  lemma {:induction false} OnlyTags(ts: seq<Tagged>, u: nat, ks: seq<Token>, t: nat)
    ensures Only(ts + Tag(u, ks), t) == Only(ts, t) + if u == t then ks else []
  {
    hide Only, Tag;
    var n := |ks| - 1;
    if n < 0 {
      assert ts + Tag(u, ks) == ts;
    } else {
      OnlyTags(ts, u, ks[..n], t);
      TagSnoc(ts, u, ks);
      OnlySnoc(ts + Tag(u, ks[..n]), Tagged(u, ks[n]), t);
      assert ks == ks[..n] + [ks[n]];
    }
  }

  lemma TwoTables(d: nat, ks: seq<Token>, a: nat, ls: seq<Token>)
    requires d != a
    ensures Only(Tag(d, ks) + Tag(a, ls), d) == ks && Only(Tag(d, ks) + Tag(a, ls), a) == ls
  {
    OnlyTags([], d, ks, d);
    OnlyTags([], d, ks, a);
    OnlyTags(Tag(d, ks), a, ls, d);
    OnlyTags(Tag(d, ks), a, ls, a);
    assert [] + Tag(d, ks) == Tag(d, ks);
  }

  lemma RangeIsShort(v: seq<int>, last: int, se: nat)
    requires se < |v| && InRange(v, last, se)
    ensures BitLength(Abs(v[0] - last)) < 16 && Short(v, 1, se)
  {
    hide BitLength;
  }

  /** What a sequential block says: its difference through its component's DC table, and its AC coefficients through the
      AC table. */
  lemma WholeSaid(y: Layout, ci: nat, v: seq<int>, last: int, se: nat)
    requires IsLayout(y) && ci < |y.dc| && |v| == 64 && se < 64 && BlockInRange(v, last, Whole(se))
    ensures var ts := BlockTokens(y, ci, v, last, Whole(se));
      && ReadDifference(Only(ts, y.dc[ci])) == Read([v[0] - last], 0, [])
      && ReadValues(Only(ts, 4 + y.ac[ci]), 1, se) == Read(v[1..se + 1], 0, [])
      && |ts| == |Only(ts, y.dc[ci])| + |Only(ts, 4 + y.ac[ci])|
  {
    hide BitLength, ValueTokens, AcTokens, ReadValues, ReadDifference, Only, Short, InRange;
    var ks, ls := ValueTokens(0, v[0] - last), AcTokens(v, 1, se);
    RangeIsShort(v, last, se);
    TwoTables(y.dc[ci], ks, 4 + y.ac[ci], ls);
    DifferenceSaid(v[0] - last, []);
    BlockSaid(v, 1, se, []);
    assert ks + [] == ks && ls + [] == ls;
  }

  /** What a block of a DC scan says: the difference of its shifted value, or the value's next bit. */
  lemma DcSaid(y: Layout, ci: nat, v: seq<int>, last: int, al: nat)
    requires IsLayout(y) && ci < |y.dc| && |v| == 64
    ensures BlockInRange(v, last, FirstDc(al)) ==>
      var ts := BlockTokens(y, ci, v, last, FirstDc(al));
      && ReadDifference(Only(ts, y.dc[ci])) == Read([Floor(v[0], al) - last], 0, [])
      && |ts| == |Only(ts, y.dc[ci])|
    ensures var ts := BlockTokens(y, ci, v, last, NextDc(al));
      |ts| == 1 && Number([ts[0].tok], 1) == Floor(v[0], al) % 2
  {
    hide BitLength, ValueTokens, ReadDifference, Only, Floor;
    var ks := ValueTokens(0, Floor(v[0], al) - last);
    TwoTables(y.dc[ci], ks, 4, []);
    assert Tag(y.dc[ci], ks) + Tag(4, []) == Tag(y.dc[ci], ks) && ks + [] == ks && Pow2(1) == 2;
    if BlockInRange(v, last, FirstDc(al)) {
      DifferenceSaid(Floor(v[0], al) - last, []);
    }
  }
}
