/** A progressive AC scan segment seen from the decoder: each block either starts with EOBRUN = 0
    and may announce a run, or lies inside a run announced earlier. The encoder's delayed output
    is always such a stream. */
module BandStream {
  import opened Tokens
  import opened Values
  import opened BandPlan

  /** A block's place in the runs: first of a run of n blocks (n = 0: no run needed), or
      inside a run. */
  datatype Kind = Lead(n: nat) | Follow

  ghost function ItemTokens(v: seq<int>, b: Band, kind: Kind): seq<Token>
    requires |v| == 64 && IsBand(b)
  {
    match kind
    case Lead(n) => CodesOf(v, b) + if n > 0 then EobTokens(n) + RawBits(TailOf(v, b)) else []
    case Follow => RawBits(TailOf(v, b))
  }

  /** EOBRUN after the block. */
  function RunAfter(run: nat, kind: Kind): nat {
    match kind
    case Lead(n) => if n > 0 then n - 1 else 0
    case Follow => if run > 0 then run - 1 else 0
  }

  ghost predicate OkItem(v: seq<int>, b: Band, kind: Kind, run: nat)
    requires |v| == 64 && IsBand(b)
  {
    match kind
    case Lead(n) => run == 0 && n <= 0x7FFF && (n > 0 <==> HasTail(v, b))
    case Follow => run > 0 && CodesOf(v, b) == []
  }

  ghost predicate Blocks(vs: seq<seq<int>>) {
    forall i :: 0 <= i < |vs| ==> |vs[i]| == 64
  }

  ghost function Stream(vs: seq<seq<int>>, kinds: seq<Kind>, b: Band): seq<Token>
    requires |kinds| == |vs| && Blocks(vs) && IsBand(b)
  {
    var n := |vs| - 1;
    if n < 0 then [] else Stream(vs[..n], kinds[..n], b) + ItemTokens(vs[n], b, kinds[n])
  }

  function RunOf(kinds: seq<Kind>): nat {
    var n := |kinds| - 1;
    if n < 0 then 0 else RunAfter(RunOf(kinds[..n]), kinds[n])
  }

  ghost predicate OkStream(vs: seq<seq<int>>, kinds: seq<Kind>, b: Band)
    requires |kinds| == |vs| && Blocks(vs) && IsBand(b)
  {
    var n := |vs| - 1;
    n < 0 || (OkStream(vs[..n], kinds[..n], b) && OkItem(vs[n], b, kinds[n], RunOf(kinds[..n])))
  }

  /** The encoder's state after coding the blocks of a segment. */
  ghost function Encoded(vs: seq<seq<int>>, b: Band): Pending
    requires Blocks(vs) && IsBand(b)
  {
    var n := |vs| - 1;
    if n < 0 then Pending([], 0, []) else AddBlock(Encoded(vs[..n], b), vs[n], b)
  }

  lemma {:induction false} EncodedSafe(vs: seq<seq<int>>, b: Band)
    requires Blocks(vs) && IsBand(b)
    ensures Safe(Encoded(vs, b))
  {
    hide AddBlock, Safe;
    if |vs| > 0 {
      EncodedSafe(vs[..|vs| - 1], b);
      AddBlockSafe(Encoded(vs[..|vs| - 1], b), vs[|vs| - 1], b);
    } else {
      assert Safe(Pending([], 0, [])) by { EmptySafe(); }
    }
  }

  lemma EmptySafe()
    ensures Safe(Pending([], 0, []))
  {
  }

  /** Correction bits gathered by an open run over blocks j.. . */
  ghost function OpenBits(vs: seq<seq<int>>, b: Band, j: nat): seq<int>
    requires Blocks(vs) && IsBand(b)
  {
    var n := |vs| - 1;
    if n < j then [] else OpenBits(vs[..n], b, j) + TailOf(vs[n], b)
  }

  /** Closing a run: the first block leads it, the others follow. */
  function CloseKinds(kinds: seq<Kind>, n: nat, m: nat): (r: seq<Kind>)
    ensures |r| == |kinds| + 1 + m
  {
    kinds + [Lead(n)] + seq(m, _ => Follow)
  }

  lemma {:induction false} CloseRun(vs: seq<seq<int>>, b: Band, kinds: seq<Kind>, n: nat)
    requires Blocks(vs) && IsBand(b) && |kinds| < |vs| <= |kinds| + n && n <= 0x7FFF
    requires OkStream(vs[..|kinds|], kinds, b) && RunOf(kinds) == 0
    requires HasTail(vs[|kinds|], b)
    requires forall i :: |kinds| < i < |vs| ==> CodesOf(vs[i], b) == []
    ensures var j := |kinds|; var ks := CloseKinds(kinds, n, |vs| - j - 1);
      && OkStream(vs, ks, b) && RunOf(ks) == n - (|vs| - j)
      && Stream(vs, ks, b) == Stream(vs[..j], kinds, b) + CodesOf(vs[j], b) + EobTokens(n) + RawBits(OpenBits(vs, b, j))
  {
    hide CodesOf, HasTail, TailOf, EobTokens, Stream, OkStream, RunOf, OpenBits;
    var j, l := |kinds|, |vs| - 1;
    if l == j {
      CloseFirst(vs, b, kinds, n);
    } else {
      assert vs[..l][..j] == vs[..j];
      CloseRun(vs[..l], b, kinds, n);
      CloseNext(vs, b, CloseKinds(kinds, n, l - 1 - j), j);
      assert CloseKinds(kinds, n, l - j) == CloseKinds(kinds, n, l - 1 - j) + [Follow];
    }
  }

  lemma StreamSnoc(vs: seq<seq<int>>, b: Band, ks: seq<Kind>, k: Kind)
    requires Blocks(vs) && IsBand(b) && |vs| == |ks| + 1
    ensures Stream(vs, ks + [k], b) == Stream(vs[..|ks|], ks, b) + ItemTokens(vs[|ks|], b, k)
    ensures OkStream(vs, ks + [k], b) <==> OkStream(vs[..|ks|], ks, b) && OkItem(vs[|ks|], b, k, RunOf(ks))
    ensures RunOf(ks + [k]) == RunAfter(RunOf(ks), k)
  {
    hide ItemTokens, OkItem;
    assert (ks + [k])[..|ks|] == ks;
  }

  lemma FirstOpen(vs: seq<seq<int>>, b: Band, j: nat)
    requires Blocks(vs) && IsBand(b) && |vs| == j + 1
    ensures OpenBits(vs, b, j) == TailOf(vs[j], b)
  {
    assert OpenBits(vs[..j], b, j) == [];
  }

  lemma NoFollowers(kinds: seq<Kind>, n: nat)
    ensures CloseKinds(kinds, n, 0) == kinds + [Lead(n)]
  {
  }

  lemma Regroup(s: seq<Token>, c: seq<Token>, e: seq<Token>, r: seq<Token>)
    ensures s + (c + (e + r)) == s + c + e + r
  {
  }

  lemma CloseFirst(vs: seq<seq<int>>, b: Band, kinds: seq<Kind>, n: nat)
    requires Blocks(vs) && IsBand(b) && |kinds| == |vs| - 1 && 0 < n <= 0x7FFF
    requires OkStream(vs[..|kinds|], kinds, b) && RunOf(kinds) == 0 && HasTail(vs[|kinds|], b)
    ensures var j := |kinds|; var ks := CloseKinds(kinds, n, 0);
      && OkStream(vs, ks, b) && RunOf(ks) == n - 1
      && Stream(vs, ks, b) == Stream(vs[..j], kinds, b) + CodesOf(vs[j], b) + EobTokens(n) + RawBits(OpenBits(vs, b, j))
  {
    hide CodesOf, HasTail, TailOf, EobTokens, Stream, OkStream, RunOf, OpenBits, RawBits;
    var j := |kinds|;
    assert CloseKinds(kinds, n, 0) == kinds + [Lead(n)] by { NoFollowers(kinds, n); }
    StreamSnoc(vs, b, kinds, Lead(n));
    FirstOpen(vs, b, j);
    Regroup(Stream(vs[..j], kinds, b), CodesOf(vs[j], b), EobTokens(n), RawBits(TailOf(vs[j], b)));
  }

  lemma CloseNext(vs: seq<seq<int>>, b: Band, ks: seq<Kind>, j: nat)
    requires Blocks(vs) && IsBand(b) && |vs| > 0 && |ks| == |vs| - 1 && j < |vs| - 1
    requires OkStream(vs[..|vs| - 1], ks, b) && RunOf(ks) > 0 && CodesOf(vs[|vs| - 1], b) == []
    ensures OkStream(vs, ks + [Follow], b) && RunOf(ks + [Follow]) == RunOf(ks) - 1
    ensures Stream(vs, ks + [Follow], b) == Stream(vs[..|vs| - 1], ks, b) + RawBits(TailOf(vs[|vs| - 1], b))
    ensures RawBits(OpenBits(vs, b, j)) == RawBits(OpenBits(vs[..|vs| - 1], b, j)) + RawBits(TailOf(vs[|vs| - 1], b))
  {
    hide CodesOf, HasTail, TailOf, Stream, OkStream, RunOf;
    StreamSnoc(vs, b, ks, Follow);
    RawBitsConcat(OpenBits(vs[..|vs| - 1], b, j), TailOf(vs[|vs| - 1], b));
  }

  /** The encoder's state, as a closed stream plus one open run. */
  ghost predicate Open(vs: seq<seq<int>>, b: Band, kinds: seq<Kind>, p: Pending)
    requires Blocks(vs) && IsBand(b)
  {
    var j := |kinds|;
    && j + p.run == |vs| && OkStream(vs[..j], kinds, b) && RunOf(kinds) == 0
    && p.tokens == Stream(vs[..j], kinds, b) + (if p.run > 0 then CodesOf(vs[j], b) else [])
    && p.bits == OpenBits(vs, b, j)
    && (p.run > 0 ==> HasTail(vs[j], b)) && forall i :: j < i < |vs| ==> CodesOf(vs[i], b) == []
  }

  /** Forcing out the run closes it. */
  lemma CloseOpen(vs: seq<seq<int>>, b: Band, kinds: seq<Kind>, p: Pending) returns (ks: seq<Kind>)
    requires Blocks(vs) && IsBand(b) && Open(vs, b, kinds, p) && p.run <= 0x7FFF
    ensures Open(vs, b, ks, FlushRun(p)) && |ks| == |vs|
  {
    hide CodesOf, HasTail, TailOf, EobTokens, OpenBits, Stream, OkStream, RunOf;
    if p.run > 0 {
      CloseRun(vs, b, kinds, p.run);
      ks := CloseKinds(kinds, p.run, p.run - 1);
      assert vs[..|vs|] == vs;
      NothingOpen(vs, b);
    } else {
      ks := kinds;
    }
  }

  lemma NothingOpen(vs: seq<seq<int>>, b: Band)
    requires Blocks(vs) && IsBand(b)
    ensures OpenBits(vs, b, |vs|) == []
  {
  }

  lemma {:induction false} OpenPrefix(vs: seq<seq<int>>, b: Band, kinds: seq<Kind>, p: Pending)
    requires Blocks(vs) && IsBand(b) && |vs| > 0 && Open(vs[..|vs| - 1], b, kinds, p)
    ensures vs[..|vs| - 1][..|kinds|] == vs[..|kinds|]
  {
  }

  /** A block inside the open run. */
  lemma AddFollow(vs: seq<seq<int>>, b: Band, ks: seq<Kind>, p: Pending)
    requires Blocks(vs) && IsBand(b) && |vs| > 0 && Open(vs[..|vs| - 1], b, ks, p)
    requires p.run > 0 && CodesOf(vs[|vs| - 1], b) == []
    ensures Open(vs, b, ks, p.(run := p.run + 1, bits := p.bits + TailOf(vs[|vs| - 1], b)))
  {
    hide CodesOf, HasTail, TailOf, EobTokens, OpenBits, RunOf, Stream, OkStream;
    OpenPrefix(vs, b, ks, p);
    OpenStep(vs, b, ks);
    assert vs[..|vs| - 1][|ks|] == vs[|ks|];
  }

  /** A block that opens a run of its own, or needs none. */
  lemma AddLead(vs: seq<seq<int>>, b: Band, ks: seq<Kind>, p: Pending)
    requires Blocks(vs) && IsBand(b) && |vs| > 0 && Open(vs[..|vs| - 1], b, ks, p) && p.run == 0
    ensures var v := vs[|vs| - 1]; var tokens := p.tokens + CodesOf(v, b);
      if HasTail(v, b) then Open(vs, b, ks, Pending(tokens, 1, p.bits + TailOf(v, b)))
      else Open(vs, b, ks + [Lead(0)], Pending(tokens, 0, p.bits))
  {
    hide CodesOf, HasTail, TailOf, EobTokens, OpenBits, RunOf, Stream, OkStream;
    OpenPrefix(vs, b, ks, p);
    OpenStep(vs, b, ks);
    NothingOpen(vs[..|vs| - 1], b);
    if !HasTail(vs[|vs| - 1], b) {
      CloseSingle(vs, b, ks);
    }
  }

  /** Each new block keeps the structure. */
  lemma AddToOpen(vs: seq<seq<int>>, b: Band, kinds: seq<Kind>, p: Pending) returns (ks: seq<Kind>)
    requires Blocks(vs) && IsBand(b) && |vs| > 0 && Open(vs[..|vs| - 1], b, kinds, p) && p.run < 0x7FFF
    ensures Open(vs, b, ks, AddBlock(p, vs[|vs| - 1], b))
  {
    hide CodesOf, HasTail, TailOf, EobTokens, Open;
    var v := vs[|vs| - 1];
    var p2: Pending;
    if CodesOf(v, b) == [] && p.run > 0 {
      ks := kinds;
      NoCodesMeansTail(v, b);
      AddFollow(vs, b, kinds, p);
      p2 := p.(run := p.run + 1, bits := p.bits + TailOf(v, b));
    } else {
      ks := CloseOpen(vs[..|vs| - 1], b, kinds, p);
      var p0 := FlushRun(p);
      AddLead(vs, b, ks, p0);
      assert CodesOf(v, b) == [] ==> p0.tokens + CodesOf(v, b) == p0.tokens;
      if HasTail(v, b) {
        p2 := Pending(p0.tokens + CodesOf(v, b), 1, p0.bits + TailOf(v, b));
      } else {
        p2 := Pending(p0.tokens + CodesOf(v, b), 0, p0.bits);
        ks := ks + [Lead(0)];
      }
    }
    if HasTail(v, b) && (p2.run == 0x7FFF || |p2.bits| > MAX_CORR_BITS - DCTSIZE2 + 1) {
      ks := CloseOpen(vs, b, ks, p2);
    }
  }

  lemma OpenStep(vs: seq<seq<int>>, b: Band, kinds: seq<Kind>)
    requires Blocks(vs) && IsBand(b) && |vs| > 0
    ensures |kinds| < |vs| ==>
        OpenBits(vs, b, |kinds|) == OpenBits(vs[..|vs| - 1], b, |kinds|) + TailOf(vs[|vs| - 1], b)
  {
  }

  /** A block without codes is all tail. */
  lemma NoCodesMeansTail(v: seq<int>, b: Band)
    requires |v| == 64 && IsBand(b) && CodesOf(v, b) == []
    ensures HasTail(v, b)
    ensures if b.first then forall k :: b.ss <= k <= b.se ==> Shifted(v[k], b.al) == 0
            else Eob(Magnitudes(v, b.al), b) == 0
  {
    hide Shifted;
    if b.first {
      var u := Sent(v, b.al);
      assert Next(u, b.ss, b.se) > b.se;
      forall k | b.ss <= k <= b.se ensures Shifted(v[k], b.al) == 0 {
        assert u[k] == 0;
      }
    }
  }

  /** A block without codes only lengthens the run, until the run counter is full or more than 937 correction bits
      wait. */
  lemma RunKept(p: Pending, v: seq<int>, b: Band)
    requires |v| == 64 && IsBand(b) && CodesOf(v, b) == [] && Safe(p)
    ensures AddBlock(p, v, b) ==
      if p.run < 0x7FFE && |p.bits| + |TailOf(v, b)| <= 937
      then Pending(p.tokens, p.run + 1, p.bits + TailOf(v, b))
      else Pending(p.tokens + EobTokens(p.run + 1) + RawBits(p.bits + TailOf(v, b)), 0, [])
  {
    hide CodesOf, HasTail, TailOf, EobTokens;
    NoCodesMeansTail(v, b);
  }

  lemma CloseSingle(vs: seq<seq<int>>, b: Band, kinds: seq<Kind>)
    requires Blocks(vs) && IsBand(b) && |vs| == |kinds| + 1 && !HasTail(vs[|kinds|], b)
    requires OkStream(vs[..|kinds|], kinds, b) && RunOf(kinds) == 0
    ensures var ks := kinds + [Lead(0)];
      && OkStream(vs, ks, b) && RunOf(ks) == 0
      && Stream(vs, ks, b) == Stream(vs[..|kinds|], kinds, b) + CodesOf(vs[|kinds|], b)
      && vs[..|ks|] == vs && OpenBits(vs, b, |ks|) == []
  {
    assert (kinds + [Lead(0)])[..|kinds|] == kinds;
  }

  /** Main structure theorem: what the encoder has produced when a segment is finished is a
      well-formed decoder stream of the segment's blocks. */
  lemma SegmentIsStream(vs: seq<seq<int>>, b: Band) returns (kinds: seq<Kind>)
    requires Blocks(vs) && IsBand(b)
    ensures |kinds| == |vs| && OkStream(vs, kinds, b) && RunOf(kinds) == 0
    ensures FlushRun(Encoded(vs, b)).tokens == Stream(vs, kinds, b)
  {
    hide CodesOf, HasTail, TailOf, EobTokens, OpenBits, OkStream, Stream, Encoded, AddBlock, FlushRun, RunOf;
    var ks := OpenStructure(vs, b);
    EncodedSafe(vs, b);
    kinds := CloseOpen(vs, b, ks, Encoded(vs, b));
    assert vs[..|vs|] == vs;
    FlushedRun(Encoded(vs, b));
  }

  lemma FlushedRun(p: Pending)
    ensures FlushRun(p).run == 0
  {
  }

  lemma {:induction false} OpenStructure(vs: seq<seq<int>>, b: Band) returns (kinds: seq<Kind>)
    requires Blocks(vs) && IsBand(b)
    ensures Open(vs, b, kinds, Encoded(vs, b))
  {
    hide AddBlock;
    if |vs| == 0 {
      kinds := [];
    } else {
      var ks := OpenStructure(vs[..|vs| - 1], b);
      EncodedSafe(vs[..|vs| - 1], b);
      kinds := AddToOpen(vs, b, ks, Encoded(vs[..|vs| - 1], b));
    }
  }
}
