/** Arithmetic shared by the entropy coders: powers of two, positional values of
    byte and bit strings, and the little division facts the proofs lean on. */
module Numbers {

  /** 1 << n. */
  function Pow2(n: nat): (p: nat)
    ensures p > 0
  {
    if n == 0 then 1 else 2 * Pow2(n - 1)
  }

  lemma {:induction false} Pow2Add(m: nat, n: nat)
    ensures Pow2(m + n) == Pow2(m) * Pow2(n)
  {
    if m == 0 {
    } else {
      Pow2Add(m - 1, n);
      MulAssoc(2, Pow2(m - 1), Pow2(n));
    }
  }

  lemma {:induction false} Pow2Monotonic(m: nat, n: nat)
    requires m <= n
    ensures Pow2(m) <= Pow2(n)
  {
    if m == n {
    } else {
      Pow2Monotonic(m, n - 1);
    }
  }

  lemma Pow2Constants()
    ensures Pow2(0) == 1 && Pow2(1) == 2 && Pow2(4) == 16 && Pow2(8) == 0x100 && Pow2(11) == 0x800
    ensures Pow2(15) == 0x8000 && Pow2(16) == 0x10000 && Pow2(19) == 0x80000
    ensures Pow2(24) == 0x1000000 && Pow2(27) == 0x8000000
  {
    assert Pow2(4) == 16;
    Pow2Add(4, 4);
    Pow2Add(8, 8);
    Pow2Add(16, 8);
    assert Pow2(11) == 8 * Pow2(8);
    assert Pow2(19) == 8 * Pow2(16);
    assert Pow2(27) == 8 * Pow2(24);
  }

  lemma MulAssoc(x: int, y: int, z: int)
    ensures x * y * z == x * (y * z)
  {
  }

  lemma MulLe(x: int, y: int, k: int)
    requires x <= y && 0 <= k
    ensures x * k <= y * k
  {
  }

  lemma MulLt(x: int, y: int, k: int)
    requires x < y && 0 < k
    ensures x * k < y * k
  {
  }

  lemma Distribute(x: int, y: int, u: int)
    ensures (x + y) * u == x * u + y * u
  {
  }

  /** a / b rounded up, jdiv_round_up. */
  function RoundUp(a: nat, b: nat): int
    requires b > 0
  {
    (a + b - 1) / b
  }

  lemma RoundUpIs(a: nat, b: nat, q: int)
    requires b > 0
    ensures RoundUp(a, b) == q <==> (q - 1) * b < a <= q * b
  {
    var p := RoundUp(a, b);
    var r := (a + b - 1) % b;
    assert a + b - 1 == p * b + r;
    assert (p - 1) * b == p * b - b;
    if (q - 1) * b < a <= q * b && p != q {
      if p < q { MulLe(p, q - 1, b); } else { MulLe(q, p - 1, b); }
    }
  }

  /** Rounding up is least: below a bound exactly when a is below its multiple. */
  lemma RoundUpLe(a: nat, b: nat, q: int)
    requires b > 0
    ensures RoundUp(a, b) <= q <==> a <= q * b
  {
    var p := RoundUp(a, b);
    RoundUpIs(a, b, p);
    if p <= q { MulLe(p, q, b); } else { MulLe(q, p - 1, b); }
  }

  /** Scaling up by k before rounding keeps the result within one unit of k. */
  lemma RoundUpScaled(a: nat, k: nat, t: int, unit: nat)
    requires unit > 0 && k > 0 && (t - 1) * unit < a <= t * unit
    ensures a * k >= 0 && (t - 1) * k < RoundUp(a * k, unit) <= t * k
  {
    MulLe(0, a, k);
    MulLt((t - 1) * unit, a, k);
    MulLe(a, t * unit, k);
    Rotate(t, unit, k);
    Rotate(t - 1, unit, k);
    RoundUpLe(a * k, unit, t * k);
    RoundUpLe(a * k, unit, (t - 1) * k);
  }

  lemma Rotate(x: int, y: int, z: int)
    ensures x * y * z == x * z * y
  {
  }

  /** Quotient and remainder are unique. */
  lemma ModUnique(x: int, u: int, q: int, r: int)
    requires u > 0 && x == q * u + r && 0 <= r < u
    ensures x % u == r && x / u == q
  {
    var p := x / u;
    assert x == p * u + x % u;
    if p < q { MulLe(p + 1, q, u); } else if p > q { MulLe(q + 1, p, u); }
  }

  /** The number a byte string spells in base 256, most significant byte first. */
  function Val(s: seq<int>): int
  {
    if |s| == 0 then 0 else 256 * Val(s[..|s| - 1]) + s[|s| - 1]
  }

  function Fill(v: int, n: nat): (s: seq<int>)
    ensures |s| == n
    ensures forall i :: 0 <= i < n ==> s[i] == v
  {
    seq(n, i => v)
  }

  lemma ValSnoc(s: seq<int>, b: int)
    ensures Val(s + [b]) == 256 * Val(s) + b
  {
    assert (s + [b])[..|s|] == s;
  }

  lemma {:induction false} ValConcat(s: seq<int>, t: seq<int>)
    ensures Val(s + t) == Val(s) * Pow2(8 * |t|) + Val(t)
  {
    if |t| == 0 {
      assert s + t == s;
    } else {
      var t' := t[..|t| - 1];
      assert s + t == (s + t') + [t[|t| - 1]];
      ValSnoc(s + t', t[|t| - 1]);
      ValConcat(s, t');
      Pow2Add(8 * |t'|, 8);
      Pow2Constants();
      MulAssoc(Val(s), Pow2(8 * |t'|), 256);
    }
  }

  ghost predicate IsBytes(s: seq<int>) {
    forall i :: 0 <= i < |s| ==> 0 <= s[i] <= 255
  }

  lemma {:induction false} ValBounds(s: seq<int>)
    requires IsBytes(s)
    ensures 0 <= Val(s) < Pow2(8 * |s|)
  {
    if |s| > 0 {
      ValBounds(s[..|s| - 1]);
      Pow2Add(8 * (|s| - 1), 8);
      Pow2Constants();
    }
  }

  lemma {:induction false} ValOfFill(n: nat)
    ensures Val(Fill(0, n)) == 0
    ensures Val(Fill(255, n)) == Pow2(8 * n) - 1
  {
    if n > 0 {
      ValOfFill(n - 1);
      assert Fill(0, n)[..n - 1] == Fill(0, n - 1);
      assert Fill(255, n)[..n - 1] == Fill(255, n - 1);
      Pow2Add(8 * (n - 1), 8);
      Pow2Constants();
    }
  }
}
