/** The tokens of sequential Huffman coding and of progressive DC scans (sections F.1.2, F.2.2 and G.1.2.1
    of ITU-T T.81). */
module SequentialPlan {
  import opened Bits
  import opened Tokens
  import opened Values

  /** The AC coefficients from k on, k being the start of a run. */
  function AcTokens(v: seq<int>, k: nat, se: nat): seq<Token>
    requires se < |v|
    decreases se + 1 - k
  {
    if k > se then []
    else
      var n := Next(v, k, se);
      if n > se then [Sym(0)]
      else if n - k > 15 then [Sym(0xF0)] + AcTokens(v, k + 16, se)
      else ValueTokens(n - k, v[n]) + AcTokens(v, n + 1, se)
  }

  /** Values the coder can express; a DC difference may be twice as large. */
  ghost predicate InRange(v: seq<int>, last: int, se: nat)
    requires se < |v|
  {
    && BitLength(Abs(v[0] - last)) <= MAX_COEF_BITS + 1
    && forall k :: 1 <= k <= se ==> BitLength(Abs(v[k])) <= MAX_COEF_BITS
  }

  // Forms of scans ----------------------------------------------------------------------

  /** A sequential scan, or a DC scan of a progressive script: the first down to bit al, or one more bit. */
  datatype Form = Whole(se: nat) | FirstDc(al: nat) | NextDc(al: nat)

  ghost predicate IsForm(f: Form) {
    f.Whole? ==> f.se < 64
  }

  // Scans --------------------------------------------------------------------------------

  /** A token with the table it is coded through: DC tables are 0..3, AC tables 4..7. */
  datatype Tagged = Tagged(tbl: nat, tok: Token)

  ghost predicate AreCTables(cs: seq<CTable>) {
    |cs| == 8 && forall t :: 0 <= t < 8 ==> IsCTable(cs[t])
  }

  ghost function OneBits(cs: seq<CTable>, k: Tagged): (r: seq<int>)
    requires AreCTables(cs)
    ensures IsBits(r)
  {
    if k.tbl < 8 then TokenBits(cs[k.tbl], k.tok) else []
  }

  ghost function TaggedBits(cs: seq<CTable>, ts: seq<Tagged>): (r: seq<int>)
    requires AreCTables(cs)
    ensures IsBits(r)
  {
    var n := |ts| - 1;
    if n < 0 then [] else TaggedBits(cs, ts[..n]) + OneBits(cs, ts[n])
  }

  lemma TaggedBitsSnoc(cs: seq<CTable>, ts: seq<Tagged>, k: Tagged)
    requires AreCTables(cs)
    ensures TaggedBits(cs, ts + [k]) == TaggedBits(cs, ts) + OneBits(cs, k)
  {
    hide OneBits, AreCTables;
    assert (ts + [k])[..|ts|] == ts;
  }

  lemma {:induction false} TaggedBitsConcat(cs: seq<CTable>, s: seq<Tagged>, t: seq<Tagged>)
    requires AreCTables(cs)
    ensures TaggedBits(cs, s + t) == TaggedBits(cs, s) + TaggedBits(cs, t)
  {
    hide OneBits, AreCTables, TaggedBits;
    var n := |t| - 1;
    if n < 0 {
      assert s + t == s;
      assert TaggedBits(cs, t) == [] by { NoTagged(cs, t); }
    } else {
      assert t == t[..n] + [t[n]] && s + t == (s + t[..n]) + [t[n]];
      TaggedBitsSnoc(cs, t[..n], t[n]);
      TaggedBitsSnoc(cs, s + t[..n], t[n]);
      TaggedBitsConcat(cs, s, t[..n]);
    }
  }

  lemma NoTagged(cs: seq<CTable>, ts: seq<Tagged>)
    requires AreCTables(cs)
    ensures |ts| == 0 ==> TaggedBits(cs, ts) == []
  {
  }

  function Tag(t: nat, ks: seq<Token>): (r: seq<Tagged>)
    ensures |r| == |ks|
  {
    seq(|ks|, i requires 0 <= i < |ks| => Tagged(t, ks[i]))
  }

  lemma {:induction false} TagBits(cs: seq<CTable>, t: nat, ks: seq<Token>)
    requires AreCTables(cs) && t < 8
    ensures TaggedBits(cs, Tag(t, ks)) == AllBits(cs[t], ks)
  {
    hide TokenBits;
    var n := |ks| - 1;
    if n >= 0 {
      TagBits(cs, t, ks[..n]);
      assert Tag(t, ks)[..n] == Tag(t, ks[..n]);
    }
  }

  /** The tokens of one table. */
  function Only(ts: seq<Tagged>, t: nat): seq<Token> {
    var n := |ts| - 1;
    if n < 0 then [] else Only(ts[..n], t) + if ts[n].tbl == t then [ts[n].tok] else []
  }

  /** MCU layout: the component of each block, and the tables of each component. */
  datatype Layout = Layout(member: seq<nat>, dc: seq<nat>, ac: seq<nat>)

  ghost predicate IsLayout(y: Layout) {
    && |y.dc| == |y.ac| && (forall i :: 0 <= i < |y.member| ==> y.member[i] < |y.dc|)
    && forall c :: 0 <= c < |y.dc| ==> y.dc[c] < 4 && y.ac[c] < 4
  }

  ghost predicate IsMcu(y: Layout, mcu: seq<seq<int>>) {
    |mcu| == |y.member| && forall i :: 0 <= i < |mcu| ==> |mcu[i]| == 64
  }

  function BlockTokens(y: Layout, ci: nat, v: seq<int>, last: int, f: Form): seq<Tagged>
    requires ci < |y.dc| && ci < |y.ac| && IsForm(f) && |v| == 64
  {
    match f
    case Whole(se) => Tag(y.dc[ci], ValueTokens(0, v[0] - last)) + Tag(4 + y.ac[ci], AcTokens(v, 1, se))
    case FirstDc(al) => Tag(y.dc[ci], ValueTokens(0, Floor(v[0], al) - last))
    case NextDc(al) => [Tagged(0, Raw(Floor(v[0], al), 1))]
  }

  /** Values the scan can express. */
  ghost predicate BlockInRange(v: seq<int>, last: int, f: Form)
    requires IsForm(f) && |v| == 64
  {
    match f
    case Whole(se) => InRange(v, last, se)
    case FirstDc(al) => BitLength(Abs(Floor(v[0], al) - last)) <= MAX_COEF_BITS + 1
    case NextDc(_) => true
  }

  /** The DC prediction after a block; refinements need none. */
  function NextLast(f: Form, v: seq<int>, last: int): int
    requires |v| > 0
  {
    match f
    case Whole(_) => v[0]
    case FirstDc(al) => Floor(v[0], al)
    case NextDc(_) => last
  }

  /** The DC predictions after the first n blocks of an MCU. */
  ghost function LastsAfter(y: Layout, mcu: seq<seq<int>>, n: nat, last: seq<int>, f: Form): (r: seq<int>)
    requires IsLayout(y) && IsMcu(y, mcu) && n <= |mcu| && |last| == |y.dc|
    ensures |r| == |y.dc|
  {
    if n == 0 then last
    else
      var l, ci := LastsAfter(y, mcu, n - 1, last, f), y.member[n - 1];
      l[ci := NextLast(f, mcu[n - 1], l[ci])]
  }

  ghost function McuTokens(y: Layout, mcu: seq<seq<int>>, n: nat, last: seq<int>, f: Form): seq<Tagged>
    requires IsLayout(y) && IsMcu(y, mcu) && n <= |mcu| && |last| == |y.dc| && IsForm(f)
  {
    if n == 0 then []
    else
      var ci := y.member[n - 1];
      McuTokens(y, mcu, n - 1, last, f) + BlockTokens(y, ci, mcu[n - 1], LastsAfter(y, mcu, n - 1, last, f)[ci], f)
  }

  ghost predicate McuInRange(y: Layout, mcu: seq<seq<int>>, n: nat, last: seq<int>, f: Form)
    requires IsLayout(y) && IsMcu(y, mcu) && n <= |mcu| && |last| == |y.dc| && IsForm(f)
  {
    forall i :: 0 <= i < n ==> BlockInRange(mcu[i], LastsAfter(y, mcu, i, last, f)[y.member[i]], f)
  }

  ghost predicate AreMcus(y: Layout, mcus: seq<seq<seq<int>>>) {
    forall i :: 0 <= i < |mcus| ==> IsMcu(y, mcus[i])
  }

  /** The DC predictions after the MCUs of a segment; a segment starts from zero. */
  ghost function Lasts(y: Layout, mcus: seq<seq<seq<int>>>, f: Form): (r: seq<int>)
    requires IsLayout(y) && AreMcus(y, mcus)
    ensures |r| == |y.dc|
  {
    var n := |mcus| - 1;
    if n < 0 then seq(|y.dc|, _ => 0) else LastsAfter(y, mcus[n], |mcus[n]|, Lasts(y, mcus[..n], f), f)
  }

  ghost function SegmentTokens(y: Layout, mcus: seq<seq<seq<int>>>, f: Form): seq<Tagged>
    requires IsLayout(y) && AreMcus(y, mcus) && IsForm(f)
  {
    var n := |mcus| - 1;
    if n < 0 then []
    else SegmentTokens(y, mcus[..n], f) + McuTokens(y, mcus[n], |mcus[n]|, Lasts(y, mcus[..n], f), f)
  }

  ghost predicate SegmentInRange(y: Layout, mcus: seq<seq<seq<int>>>, f: Form)
    requires IsLayout(y) && AreMcus(y, mcus) && IsForm(f)
  {
    forall n :: 0 <= n < |mcus| ==> McuInRange(y, mcus[n], |mcus[n]|, Lasts(y, mcus[..n], f), f)
  }

  /** Every symbol has a code in its table. */
  ghost predicate AllCoded(cs: seq<CTable>, ts: seq<Tagged>)
    requires AreCTables(cs)
  {
    forall i :: 0 <= i < |ts| && ts[i].tok.Sym? ==>
      ts[i].tbl < 8 && ts[i].tok.s < 256 && cs[ts[i].tbl].si[ts[i].tok.s] > 0
  }

  lemma AllCodedConcat(cs: seq<CTable>, s: seq<Tagged>, t: seq<Tagged>)
    requires AreCTables(cs)
    ensures AllCoded(cs, s + t) <==> AllCoded(cs, s) && AllCoded(cs, t)
  {
    var all := s + t;
    if AllCoded(cs, all) {
      forall i | 0 <= i < |s| && s[i].tok.Sym?
        ensures s[i].tbl < 8 && s[i].tok.s < 256 && cs[s[i].tbl].si[s[i].tok.s] > 0
      {
        assert all[i] == s[i];
      }
      forall i | 0 <= i < |t| && t[i].tok.Sym?
        ensures t[i].tbl < 8 && t[i].tok.s < 256 && cs[t[i].tbl].si[t[i].tok.s] > 0
      {
        assert all[|s| + i] == t[i];
      }
    }
  }

  lemma TagCoded(cs: seq<CTable>, t: nat, ks: seq<Token>)
    requires AreCTables(cs) && t < 8
    ensures AllCoded(cs, Tag(t, ks)) <==> Coded(cs[t], ks)
  {
    if AllCoded(cs, Tag(t, ks)) {
      forall i | 0 <= i < |ks| && ks[i].Sym? ensures ks[i].s < 256 && cs[t].si[ks[i].s] > 0 {
        assert Tag(t, ks)[i].tok == ks[i];
      }
    }
  }
}
