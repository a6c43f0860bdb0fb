/** The blocks of an MCU as the decoders' MCU routines get them: separate arrays of 64 coefficients. */
module BlockArrays {
  /** The blocks of an MCU, as separate arrays. */
  ghost predicate AreArrays(blocks: seq<array<int>>, n: nat) {
    && |blocks| == n && (forall i :: 0 <= i < |blocks| ==> blocks[i].Length == 64)
    && forall i, j :: 0 <= i < j < |blocks| ==> blocks[i] != blocks[j]
  }

  ghost function Contents(blocks: seq<array<int>>): (r: seq<seq<int>>)
    reads blocks
    ensures |r| == |blocks| && forall i :: 0 <= i < |r| ==> r[i] == blocks[i][..]
  {
    seq(|blocks|, i requires 0 <= i < |blocks| reads blocks => blocks[i][..])
  }

  /** Blocks with the given coefficients. */
  method LoadBlocks(mcu: seq<seq<int>>) returns (blocks: seq<array<int>>)
    requires forall i :: 0 <= i < |mcu| ==> |mcu[i]| == 64
    ensures AreArrays(blocks, |mcu|) && Contents(blocks) == mcu && forall i :: 0 <= i < |blocks| ==> fresh(blocks[i])
  {
    blocks := [];
    while |blocks| < |mcu|
      invariant |blocks| <= |mcu| && forall i :: 0 <= i < |blocks| ==> fresh(blocks[i]) && blocks[i].Length == 64
      invariant forall i :: 0 <= i < |blocks| ==> blocks[i][..] == mcu[i]
      invariant forall i, j :: 0 <= i < j < |blocks| ==> blocks[i] != blocks[j]
    {
      var source := mcu[|blocks|];
      var block := new int[64](k requires 0 <= k < |source| => source[k]);
      assert block[..] == source;
      blocks := blocks + [block];
    }
  }

  method TakeBlocks(blocks: seq<array<int>>) returns (r: seq<seq<int>>)
    ensures r == Contents(blocks)
  {
    r := [];
    while |r| < |blocks|
      invariant |r| <= |blocks| && forall i :: 0 <= i < |r| ==> r[i] == blocks[i][..]
    {
      r := r + [blocks[|r|][..]];
    }
  }
}
