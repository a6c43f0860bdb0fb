/** Bit strings, most significant bit first. */
module Bits {
  import opened Numbers

  ghost predicate IsBits(s: seq<int>) {
    forall i :: 0 <= i < |s| ==> 0 <= s[i] <= 1
  }

  /** The number a bit string spells. */
  ghost function BitVal(s: seq<int>): int {
    if |s| == 0 then 0 else 2 * BitVal(s[..|s| - 1]) + s[|s| - 1]
  }

  /** The low n bits of v. */
  ghost function BitsOf(v: int, n: nat): (s: seq<int>)
    ensures |s| == n && IsBits(s)
    decreases n
  {
    if n == 0 then [] else BitsOf(v / 2, n - 1) + [v % 2]
  }

  lemma {:induction false} BitValBounds(s: seq<int>)
    requires IsBits(s)
    ensures 0 <= BitVal(s) < Pow2(|s|)
  {
    if |s| > 0 {
      BitValBounds(s[..|s| - 1]);
    }
  }

  lemma {:induction false} BitValConcat(s: seq<int>, t: seq<int>)
    ensures BitVal(s + t) == BitVal(s) * Pow2(|t|) + BitVal(t)
  {
    if |t| == 0 {
      assert s + t == s;
    } else {
      var t' := t[..|t| - 1];
      assert (s + t)[..|s + t| - 1] == s + t';
      BitValConcat(s, t');
      MulAssoc(BitVal(s), 2, Pow2(|t'|));
    }
  }

  lemma {:induction false} BitsOfVal(s: seq<int>)
    requires IsBits(s)
    ensures BitsOf(BitVal(s), |s|) == s
  {
    if |s| > 0 {
      BitsOfVal(s[..|s| - 1]);
    }
  }

  /** The bits of a number spell it modulo the power of two. */
  lemma {:induction false} ValBitsOf(v: int, n: nat)
    ensures BitVal(BitsOf(v, n)) == v % Pow2(n)
    decreases n
  {
    if n > 0 {
      ValBitsOf(v / 2, n - 1);
      ModSplit(v, Pow2(n - 1));
    }
  }

  lemma ModSplit(v: int, u: int)
    requires u > 0
    ensures 2 * ((v / 2) % u) + v % 2 == v % (2 * u)
  {
    var q, r := v / 2 / u, v / 2 % u;
    assert v / 2 == q * u + r;
    assert (2 * u) * q == 2 * (q * u);
    ModUnique(v, 2 * u, q, 2 * r + v % 2);
  }

  /** The bits of a byte string. */
  ghost function ByteBits(data: seq<int>): (s: seq<int>)
    ensures |s| == 8 * |data| && IsBits(s)
  {
    if |data| == 0 then [] else ByteBits(data[..|data| - 1]) + BitsOf(data[|data| - 1], 8)
  }

  lemma ByteBitsSnoc(data: seq<int>, b: int)
    ensures ByteBits(data + [b]) == ByteBits(data) + BitsOf(b, 8)
  {
    assert (data + [b])[..|data|] == data;
  }

  lemma {:induction false} ByteBitsConcat(s: seq<int>, t: seq<int>)
    ensures ByteBits(s + t) == ByteBits(s) + ByteBits(t)
  {
    hide BitsOf, ByteBits;
    if |t| == 0 {
      assert s + t == s;
      assert ByteBits(t) == [];
    } else {
      var t', b := t[..|t| - 1], t[|t| - 1];
      assert t == t' + [b] && s + t == (s + t') + [b];
      ByteBitsSnoc(s + t', b);
      ByteBitsSnoc(t', b);
      ByteBitsConcat(s, t');
    }
  }
}
