/** Bit strings, most significant bit first, and the numbers they spell. */
module Bits {

  function Pow2(k: nat): (p: nat)
    ensures p >= 1
  {
    if k == 0 then 1 else 2 * Pow2(k - 1)
  }

  lemma {:induction false} Pow2Sum(a: nat, b: nat)
    ensures Pow2(a + b) == Pow2(a) * Pow2(b)
  {
    if b > 0 { Pow2Sum(a, b - 1); }
  }

  lemma {:induction false} Pow2Grows(k: nat, m: nat)
    requires k <= m
    ensures Pow2(k) <= Pow2(m)
    decreases m
  {
    if k < m { Pow2Grows(k, m - 1); }
  }

  function Falses(n: nat): (s: seq<bool>)
    ensures |s| == n && forall i :: 0 <= i < n ==> !s[i]
  {
    seq(n, _ => false)
  }

  function Bit(b: bool): nat { if b then 1 else 0 }

  function Val(s: seq<bool>): nat {
    if |s| == 0 then 0 else 2 * Val(s[..|s| - 1]) + Bit(s[|s| - 1])
  }

  function BitsOf(v: nat, n: nat): (s: seq<bool>)
    ensures |s| == n
  {
    if n == 0 then [] else BitsOf(v / 2, n - 1) + [v % 2 == 1]
  }

  lemma ValSnoc(s: seq<bool>, b: bool)
    ensures Val(s + [b]) == 2 * Val(s) + Bit(b)
  {
    assert (s + [b])[..|s|] == s;
  }

  lemma {:induction false} ValBound(s: seq<bool>)
    ensures Val(s) < Pow2(|s|)
  {
    if |s| > 0 { ValBound(s[..|s| - 1]); }
  }

  lemma {:induction false} ValOfBits(v: nat, n: nat)
    requires v < Pow2(n)
    ensures Val(BitsOf(v, n)) == v
  {
    if n > 0 {
      ValOfBits(v / 2, n - 1);
      ValSnoc(BitsOf(v / 2, n - 1), v % 2 == 1);
    }
  }

  lemma {:induction false} BitsOfVal(s: seq<bool>)
    ensures BitsOf(Val(s), |s|) == s
  {
    if |s| > 0 {
      var t, b := s[..|s| - 1], s[|s| - 1];
      BitsOfVal(t);
      assert Val(s) / 2 == Val(t) && (Val(s) % 2 == 1) == b;
      assert s == t + [b];
    }
  }

  lemma {:induction false} ValConcat(a: seq<bool>, b: seq<bool>)
    ensures Val(a + b) == Val(a) * Pow2(|b|) + Val(b)
  {
    if |b| == 0 {
      assert a + b == a;
    } else {
      var t, x := b[..|b| - 1], b[|b| - 1];
      ValConcat(a, t);
      assert a + b == (a + t) + [x];
      ValSnoc(a + t, x);
      Doubled(Val(a), Pow2(|t|), Val(t), Bit(x));
    }
  }

  lemma Doubled(a: nat, p: nat, v: nat, x: nat)
    ensures 2 * (a * p + v) + x == a * (2 * p) + (2 * v + x)
  {
  }

  /** The first k of the n bits of v. */
  lemma {:induction false} LeadingBits(v: nat, n: nat, k: nat)
    requires k <= n
    ensures BitsOf(v, n)[..k] == BitsOf(v / Pow2(n - k), k)
    decreases n
  {
    if k < n {
      LeadingBits(v / 2, n - 1, k);
      assert BitsOf(v, n)[..k] == BitsOf(v / 2, n - 1)[..k];
      DivTwice(v, Pow2(n - 1 - k));
    } else {
      assert BitsOf(v, n)[..k] == BitsOf(v, n);
    }
  }

  lemma DivTwice(v: nat, p: nat)
    requires p >= 1
    ensures v / 2 / p == v / (2 * p)
  {
    var q := v / 2 / p;
    var r := v / 2 % p;
    assert v == 2 * (q * p + r) + v % 2;
    DivUnique(v, 2 * p, q, 2 * r + v % 2);
  }

  lemma DivUnique(v: nat, d: nat, q: nat, r: nat)
    requires d >= 1 && v == q * d + r && r < d
    ensures v / d == q && v % d == r
  {
    var q', r' := v / d, v % d;
    var k := q - q';
    MulDifference(q, q', d);
    assert v == q' * d + r';
    if k >= 1 { MulAtLeast(k, d); }
    if k <= -1 { MulAtLeast(-k, d); }
  }

  lemma MulDifference(a: int, b: int, d: int)
    ensures (a - b) * d == a * d - b * d
  {
  }

  lemma MulAtLeast(k: int, d: int)
    requires k >= 1 && d >= 1
    ensures k * d >= d
  {
  }
}
