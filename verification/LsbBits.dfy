/** Bit strings read with the least significant bit first, as deflate packs its Huffman codes
    (section 3.1.1 of RFC 1951), and the table indices they spell. */
module LsbBits {
  import opened Bits

  function LsbVal(s: seq<bool>): nat {
    if |s| == 0 then 0 else Bit(s[0]) + 2 * LsbVal(s[1..])
  }

  lemma {:induction false} LsbBound(s: seq<bool>)
    ensures LsbVal(s) < Pow2(|s|)
  {
    if |s| > 0 { LsbBound(s[1..]); }
  }

  lemma {:induction false} LsbConcat(a: seq<bool>, b: seq<bool>)
    ensures LsbVal(a + b) == LsbVal(b) * Pow2(|a|) + LsbVal(a)
  {
    if |a| == 0 {
      assert a + b == b;
    } else {
      assert (a + b)[0] == a[0] && (a + b)[1..] == a[1..] + b;
      LsbConcat(a[1..], b);
      Doubled(LsbVal(b), Pow2(|a| - 1), LsbVal(a[1..]), Bit(a[0]));
    }
  }

  /** The low k bits, and the rest. */
  lemma LsbSplit(s: seq<bool>, k: nat)
    requires k <= |s|
    ensures LsbVal(s) % Pow2(k) == LsbVal(s[..k]) && LsbVal(s) / Pow2(k) == LsbVal(s[k..])
  {
    assert s == s[..k] + s[k..];
    LsbConcat(s[..k], s[k..]);
    LsbBound(s[..k]);
    DivUnique(LsbVal(s), Pow2(k), LsbVal(s[k..]), LsbVal(s[..k]));
  }

  lemma LsbBit(s: seq<bool>, k: nat)
    requires k < |s|
    ensures (LsbVal(s) / Pow2(k)) % 2 == Bit(s[k])
  {
    LsbSplit(s, k);
  }

  lemma {:induction false} LsbInjective(s: seq<bool>, t: seq<bool>)
    requires |s| == |t| && LsbVal(s) == LsbVal(t)
    ensures s == t
  {
    if |s| > 0 {
      LsbInjective(s[1..], t[1..]);
      assert s == [s[0]] + s[1..] && t == [t[0]] + t[1..];
    }
  }

  lemma {:induction false} LsbFalses(n: nat)
    ensures LsbVal(Falses(n)) == 0
  {
    if n > 0 {
      assert Falses(n)[1..] == Falses(n - 1);
      LsbFalses(n - 1);
    }
  }

  lemma LsbPadded(s: seq<bool>, n: nat)
    ensures LsbVal(s + Falses(n)) == LsbVal(s)
  {
    LsbConcat(s, Falses(n));
    LsbFalses(n);
  }

  /** The bits of a number. */
  function LsbOf(v: nat, n: nat): (s: seq<bool>)
    ensures |s| == n
  {
    if n == 0 then [] else [v % 2 == 1] + LsbOf(v / 2, n - 1)
  }

  lemma {:induction false} ValFalses(n: nat)
    ensures Val(Falses(n)) == 0
  {
    if n > 0 {
      assert Falses(n)[..n - 1] == Falses(n - 1);
      ValFalses(n - 1);
    }
  }

  function Trues(n: nat): (s: seq<bool>)
    ensures |s| == n && forall i :: 0 <= i < n ==> s[i]
  {
    seq(n, _ => true)
  }

  lemma {:induction false} ValTrues(n: nat)
    ensures Val(Trues(n)) == Pow2(n) - 1
  {
    if n > 0 {
      assert Trues(n)[..n - 1] == Trues(n - 1);
      ValTrues(n - 1);
    }
  }

  /** Counting up, most significant bit first. */
  lemma ValSuccessor(pre: seq<bool>, n: nat)
    ensures Val(pre + [true] + Falses(n)) == Val(pre + [false] + Trues(n)) + 1
  {
    ValConcat(pre + [true], Falses(n));
    ValConcat(pre + [false], Trues(n));
    ValFalses(n);
    ValTrues(n);
    ValSnoc(pre, true);
    ValSnoc(pre, false);
    OneMore(Val(pre), Pow2(n));
  }

  lemma OneMore(a: nat, p: nat)
    ensures (2 * a + 1) * p == 2 * a * p + (p - 1) + 1
  {
  }
}
