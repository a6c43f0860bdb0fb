/** Coefficient values in Huffman coding: their size, their bits, and runs of zeros between them
    (sections F.1.2 and F.2.2 of ITU-T T.81). */
module Values {
  import opened Numbers
  import opened Tokens

  function Abs(x: int): nat { if x < 0 then -x else x }

  /** Number of bits below the leading one. */
  function Log2(n: nat): (r: nat)
    requires n > 0
    ensures Pow2(r) <= n < Pow2(r + 1)
  {
    if n == 1 then 0 else Log2(n / 2) + 1
  }

  lemma Log2Bound(n: nat)
    requires 0 < n <= 0x7FFF
    ensures Log2(n) <= 14
  {
    if Log2(n) > 14 {
      Pow2Monotonic(15, Log2(n));
      Pow2Constants();
    }
  }

  function BitLength(x: nat): (n: nat)
    ensures x < Pow2(n) && (x > 0 ==> n > 0 && Pow2(n - 1) <= x)
  {
    if x == 0 then 0 else Log2(x) + 1
  }

  /** The bits sent for a value: itself, or the complement of its magnitude. */
  function Complemented(x: int): int {
    if x < 0 then x - 1 else x
  }

  /** HUFF_EXTEND. */
  function Extend(r: int, s: nat): int
    requires s > 0
  {
    if r <= Pow2(s - 1) - 1 then r - (Pow2(s) - 1) else r
  }

  /** The decoder's sign extension inverts the encoder's complement trick. */
  lemma ExtendInverts(x: int)
    requires x != 0
    ensures var n := BitLength(Abs(x)); Extend(Complemented(x) % Pow2(n), n) == x
  {
    var n := BitLength(Abs(x));
    hide BitLength;
    assert Pow2(n) == 2 * Pow2(n - 1);
    if x > 0 {
      ModUnique(x, Pow2(n), 0, x);
    } else {
      ModUnique(x - 1, Pow2(n), -1, x - 1 + Pow2(n));
    }
  }

  /** The numbers of s bits go, in order, to the values whose magnitude has exactly s bits. */
  lemma ExtendIncreases(r1: int, r2: int, s: nat)
    requires s > 0 && 0 <= r1 < r2 < Pow2(s)
    ensures Extend(r1, s) < Extend(r2, s)
    ensures Pow2(s - 1) <= Abs(Extend(r1, s)) < Pow2(s) && Pow2(s - 1) <= Abs(Extend(r2, s)) < Pow2(s)
  {
    assert Pow2(s) == 2 * Pow2(s - 1);
  }

  lemma ShortLength(x: nat, n: nat)
    ensures BitLength(x) <= n <==> x < Pow2(n)
  {
    if BitLength(x) <= n {
      Pow2Monotonic(BitLength(x), n);
    } else {
      Pow2Monotonic(n, BitLength(x) - 1);
    }
  }

  /** Arithmetic right shift. */
  function Floor(x: int, al: nat): int { x / Pow2(al) }

  /** x | p1, where p1 is a power of two. */
  function SetBit(x: int, p1: int): int
    requires p1 > 0
  {
    if x / p1 % 2 == 0 then x + p1 else x
  }

  const MAX_COEF_BITS := 10

  /** The values that may be sent: AC coefficients of up to 10 bits, and DC differences of up to 11. */
  lemma SendableIs(x: int)
    ensures BitLength(Abs(x)) <= MAX_COEF_BITS <==> -1023 <= x <= 1023
    ensures BitLength(Abs(x)) <= MAX_COEF_BITS + 1 <==> -2047 <= x <= 2047
  {
    hide BitLength;
    ShortLength(Abs(x), 10);
    ShortLength(Abs(x), 11);
    assert Pow2(10) == 0x400 && Pow2(11) == 0x800 by { Pow2Constants(); }
  }

  /** A value with its size symbol, after a run of r zeros. */
  function ValueTokens(r: nat, x: int): seq<Token> {
    var n := BitLength(Abs(x));
    [Sym(16 * r + n)] + if n > 0 then [Raw(Complemented(x), n)] else []
  }

  /** The first nonzero coefficient from k on, or se + 1. */
  function Next(v: seq<int>, k: nat, se: nat): (n: nat)
    requires se < |v|
    ensures n >= k && (n <= se ==> v[n] != 0) && (k <= se + 1 ==> n <= se + 1)
    ensures forall i :: k <= i < n && i <= se ==> v[i] == 0
    decreases se + 1 - k
  {
    if k > se || v[k] != 0 then k else Next(v, k + 1, se)
  }

  lemma {:induction false} NextIs(v: seq<int>, k: nat, n: nat, se: nat)
    requires k <= n <= se + 1 && se < |v| && (forall i :: k <= i < n ==> v[i] == 0) && (n <= se ==> v[n] != 0)
    ensures Next(v, k, se) == n
    decreases n - k
  {
    if k < n {
      NextIs(v, k + 1, n, se);
    }
  }
}
