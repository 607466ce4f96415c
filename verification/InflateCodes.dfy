/** Canonical Huffman codes in deflate (section 3.2.2 of RFC 1951): symbols of length 0 have no
    code.  They are given a length no code has, so that the canonical codes of HuffmanCodes
    serve here too. */
module InflateCodes {
  import opened Bits
  import opened Counting
  import opened InverseTransform
  import opened HuffmanCodes

  const MAXBITS := 15

  ghost predicate CodeLengths(lens: seq<nat>) {
    forall i :: 0 <= i < |lens| ==> lens[i] <= MAXBITS
  }

  ghost function Used(lens: seq<nat>): (u: seq<int>)
    ensures |u| == |lens| && forall i :: 0 <= i < |lens| ==> u[i] == if lens[i] == 0 then MAXBITS + 1 else lens[i]
  {
    seq(|lens|, i requires 0 <= i < |lens| => if lens[i] == 0 then MAXBITS + 1 else lens[i])
  }

  /** The codes used up to and including length n, in units of 2^-n. */
  ghost function End(u: seq<int>, n: nat): nat { First(u, n) + CountEq(u, |u|, n) }

  // ---------------------------------------------------------------- the Kraft sum

  /** The sum of 2^(15 - length) over the symbols that have a code. */
  ghost function KraftSum(lens: seq<nat>): nat
    requires CodeLengths(lens)
  {
    if |lens| == 0 then 0
    else
      var k := |lens| - 1;
      KraftSum(lens[..k]) + if lens[k] == 0 then 0 else Pow2(MAXBITS - lens[k])
  }

  lemma {:induction false} KraftIsPartial(lens: seq<nat>, k: nat)
    requires CodeLengths(lens) && k <= |lens|
    ensures KraftSum(lens[..k]) == Partial(Used(lens), k, MAXBITS)
  {
    if k > 0 {
      KraftIsPartial(lens, k - 1);
      assert lens[..k][..k - 1] == lens[..k - 1];
    }
  }

  lemma KraftIsEnd(lens: seq<nat>)
    requires CodeLengths(lens)
    ensures KraftSum(lens) == End(Used(lens), MAXBITS)
  {
    KraftIsPartial(lens, |lens|);
    assert lens[..|lens|] == lens;
    FirstIsPartial(Used(lens), MAXBITS);
  }

  lemma EndGrows(u: seq<int>, n: nat, m: nat)
    requires n <= m
    ensures End(u, n) * Pow2(m - n) <= End(u, m)
  {
    hide First, CountEq;
    if n < m { FirstDominates(u, n, m); } else { assert Pow2(0) == 1; }
  }

  /** No length is over-subscribed exactly if the Kraft sum is at most one. */
  lemma FitsIffSum(lens: seq<nat>)
    requires CodeLengths(lens)
    ensures Fits(Used(lens), MAXBITS) <==> KraftSum(lens) <= Pow2(MAXBITS)
  {
    hide First, CountEq, Pow2, KraftSum, Used;
    var u := Used(lens);
    KraftIsEnd(lens);
    if End(u, MAXBITS) <= Pow2(MAXBITS) {
      forall n: nat | n <= MAXBITS ensures First(u, n) + CountEq(u, |u|, n) <= Pow2(n) {
        EndGrows(u, n, MAXBITS);
        Pow2Sum(n, MAXBITS - n);
        CancelFactor(End(u, n), Pow2(n), Pow2(MAXBITS - n));
      }
    }
  }

  // ---------------------------------------------------------------- consecutive codes

  /** No code has a length between n and m. */
  lemma {:induction false} FirstGap(u: seq<int>, n: nat, m: nat)
    requires n < m && CountLt(u, |u|, n + 1) == CountLt(u, |u|, m)
    ensures First(u, m) == End(u, n) * Pow2(m - n)
    decreases m
  {
    hide CountLt, CountEq;
    FirstNext(u, m - 1);
    if n + 1 == m {
      assert Pow2(1) == 2;
    } else {
      CountsStep(u, |u|, m - 1);
      CountLtMonotone(u, |u|, n + 1, m - 1);
      FirstGap(u, n, m - 1);
      Twice(End(u, n), Pow2(m - 1 - n));
    }
  }

  lemma Twice(a: nat, p: nat)
    ensures 2 * (a * p) == a * (2 * p)
  {
  }

  lemma {:induction false} NothingBelow(u: seq<int>, n: nat)
    requires CountLt(u, |u|, n) == 0 && forall k :: 0 <= k < |u| ==> u[k] >= 0
    ensures First(u, n) == 0
  {
    hide CountLt, CountEq;
    if n > 0 {
      CountsStep(u, |u|, n - 1);
      FirstNext(u, n - 1);
      NothingBelow(u, n - 1);
    }
  }

  /** The first symbol in the sorted order has code 0. */
  lemma FirstCode(u: seq<int>, i: nat)
    requires i < |u| && Rank(u, i) == 0 && forall k :: 0 <= k < |u| ==> u[k] >= 0
    ensures Code(u, i) == 0
  {
    hide First, CountLt, CountEq;
    NothingBelow(u, u[i]);
  }

  /** The next code is one more, with zeros appended if it is longer. */
  lemma NextCode(u: seq<int>, i: nat, j: nat)
    requires i < |u| && j < |u| && u[i] >= 0 && u[j] >= 0 && Rank(u, j) == Rank(u, i) + 1
    ensures u[i] <= u[j] && Code(u, j) == (Code(u, i) + 1) * Pow2(u[j] - u[i])
  {
    hide First, CountLt, CountEq;
    RankOrder(u, i, j);
    if u[i] == u[j] {
      assert Pow2(0) == 1;
    } else {
      CountsStep(u, |u|, u[i]);
      CountEqGrows(u, i, |u|, u[i]);
      CountLtMonotone(u, |u|, u[i] + 1, u[j]);
      FirstGap(u, u[i], u[j]);
    }
  }

  /** Later codes lie above all extensions of earlier ones. */
  lemma CodeOrder(u: seq<int>, i: nat, j: nat)
    requires i < |u| && j < |u| && u[i] >= 0 && u[j] >= 0 && Rank(u, i) < Rank(u, j)
    ensures u[i] <= u[j] && (Code(u, i) + 1) * Pow2(u[j] - u[i]) <= Code(u, j)
  {
    hide First, CountLt, CountEq;
    RankOrder(u, i, j);
    if u[i] == u[j] {
      assert Pow2(0) == 1;
      CountEqGrows(u, i, j, u[i]);
    } else {
      CodeInRange(u, i);
      FirstDominates(u, u[i], u[j]);
      CodeInRange(u, j);
      Scaled(Code(u, i) + 1, End(u, u[i]), Pow2(u[j] - u[i]));
    }
  }

  lemma Scaled(a: nat, b: nat, p: nat)
    requires a <= b
    ensures a * p <= b * p
  {
  }

  /** The first r bits of a code, as a number. */
  ghost function Prefix(u: seq<int>, i: nat, r: nat): nat
    requires i < |u| && r <= u[i]
  {
    Shr(Code(u, i), u[i] - r)
  }

  ghost function Quotient(v: nat, p: nat): nat
    requires p >= 1
  {
    v / p
  }

  ghost function Shr(v: nat, k: nat): nat { Quotient(v, Pow2(k)) }

  /** Shifting keeps the order, also if the larger number has been extended. */
  lemma ShrOrder(a: nat, b: nat, k: nat, d: nat)
    requires (a + 1) * Pow2(d) <= b
    ensures Shr(a, k) <= Shr(b, k + d)
  {
    Pow2Sum(k, d);
    ShrScaled(a, b, Pow2(k), Pow2(d));
  }

  lemma ShrScaled(a: nat, b: nat, p: nat, q: nat)
    requires p >= 1 && q >= 1 && (a + 1) * q <= b
    ensures a / p <= b / (p * q)
  {
    var k := a / p;
    assert k * p <= a;
    Scaled(k * p, a + 1, q);
    Regroup(k, p, q);
    QuotientAtLeast(k, p * q, b);
  }

  /** Prefixes of later codes are no smaller. */
  lemma PrefixOrder(u: seq<int>, i: nat, j: nat, r: nat)
    requires i < |u| && j < |u| && r <= u[i] && u[j] >= 0 && Rank(u, i) < Rank(u, j)
    ensures r <= u[j] && Prefix(u, i, r) <= Prefix(u, j, r)
  {
    hide Code, Rank;
    CodeOrder(u, i, j);
    ShrOrder(Code(u, i), Code(u, j), u[i] - r, u[j] - u[i]);
  }

  lemma Regroup(a: nat, b: nat, c: nat)
    ensures (a * b) * c == a * (b * c)
  {
  }

  /** If all codes up to length n leave no room below prefix p + 1, longer codes have larger
      prefixes. */
  lemma LongerAbove(u: seq<int>, j: nat, r: nat, n: nat, p: nat)
    requires j < |u| && r <= n < u[j] && (p + 1) * Pow2(n - r) <= End(u, n)
    ensures Prefix(u, j, r) > p
  {
    hide Code, First, CountEq;
    PrefixAbove(u, j, n);
    var k := Code(u, j) / Pow2(u[j] - n);
    var q, d := Pow2(u[j] - n), Pow2(n - r);
    assert k * q <= Code(u, j);
    Pow2Sum(u[j] - n, n - r);
    Scaled((p + 1) * d, k, q);
    Regroup(p + 1, d, q);
    Swap(d, q);
    QuotientAtLeast(p + 1, Pow2(u[j] - r), Code(u, j));
  }

  lemma Swap(a: nat, b: nat)
    ensures a * b == b * a
  {
  }

  /** A code with a new prefix starts that prefix: all bits after it are zero. */
  lemma NewPrefix(u: seq<int>, i: nat, j: nat, r: nat)
    requires i < |u| && j < |u| && 0 <= u[i] && r < u[j] && Rank(u, j) == Rank(u, i) + 1
    requires u[i] <= r || Prefix(u, i, r) != Prefix(u, j, r)
    ensures Code(u, j) == Prefix(u, j, r) * Pow2(u[j] - r)
  {
    hide Code, Rank;
    NextCode(u, i, j);
    var c := Code(u, i) + 1;
    if u[i] <= r {
      Pow2Sum(r - u[i], u[j] - r);
      Regroup(c, Pow2(r - u[i]), Pow2(u[j] - r));
      Exact(c * Pow2(r - u[i]), Pow2(u[j] - r));
    } else {
      var p, q := Pow2(u[i] - r), Pow2(u[j] - u[i]);
      Pow2Sum(u[i] - r, u[j] - u[i]);
      var k, m := Code(u, i) / p, Code(u, i) % p;
      assert Code(u, i) == k * p + m;
      if m + 1 < p {
        NoCarry(k, p, m + 1, q);
      } else {
        assert c == k * p + p == (k + 1) * p;
        Regroup(k + 1, p, q);
        Exact(k + 1, p * q);
      }
    }
  }

  lemma Exact(a: nat, p: nat)
    requires p >= 1
    ensures a * p / p == a
  {
    DivUnique(a * p, p, a, 0);
  }

  lemma NoCarry(k: nat, p: nat, m: nat, q: nat)
    requires m < p && q >= 1
    ensures (k * p + m) * q / (p * q) == k
  {
    assert (k * p + m) * q == k * (p * q) + m * q;
    Scaled(m + 1, p, q);
    DivUnique((k * p + m) * q, p * q, k, m * q);
  }

  // ---------------------------------------------------------------- the last code

  /** The last code of all ends where the codes end. */
  lemma LastCode(u: seq<int>, i: nat)
    requires i < |u| && u[i] >= 0 && Rank(u, i) + 1 == CountLt(u, |u|, MAXBITS + 1) && u[i] <= MAXBITS
    ensures Code(u, i) + 1 == End(u, u[i]) && End(u, MAXBITS) == End(u, u[i]) * Pow2(MAXBITS - u[i])
  {
    hide First, CountLt, CountEq;
    CountsStep(u, |u|, u[i]);
    CountEqGrows(u, i, |u|, u[i]);
    CountLtMonotone(u, |u|, u[i] + 1, MAXBITS + 1);
    FirstGap(u, u[i], MAXBITS + 1);
    FirstNext(u, MAXBITS);
    Pow2Sum(1, MAXBITS - u[i]);
    assert Pow2(1) == 2;
    Twice(End(u, u[i]), Pow2(MAXBITS - u[i]));
  }
}
