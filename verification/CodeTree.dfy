/** The tree behind BZ2_hbMakeCodeLengths (huffman.c): a forest kept as parent links, joined
    two roots at a time.  Each tree's leaves satisfy the Kraft equality, and a tree of height
    h weighs at least the Fibonacci-like bound Growth(h). */
module CodeTree {
  import opened Bits

  /** Nodes are numbered from 1; a root has link -1 and every other link leads upwards. */
  ghost predicate Forest(p: seq<int>) {
    |p| >= 1 && forall k :: 1 <= k < |p| ==> p[k] == -1 || k < p[k] < |p|
  }

  ghost function Root(p: seq<int>, k: nat): (r: nat)
    requires Forest(p) && 1 <= k < |p|
    ensures k <= r < |p| && p[r] == -1
    decreases |p| - k
  {
    if p[k] == -1 then k else Root(p, p[k])
  }

  /** What following parent from k counts. */
  ghost function Depth(p: seq<int>, k: nat): (d: nat)
    requires Forest(p) && 1 <= k < |p|
    ensures d < |p| - k
    decreases |p| - k
  {
    if p[k] == -1 then 0 else 1 + Depth(p, p[k])
  }

  /** Two roots become the children of a new one. */
  ghost function Join(p: seq<int>, a: nat, b: nat): (q: seq<int>)
    requires a < |p| && b < |p|
    ensures |q| == |p| + 1
  {
    p[a := |p|][b := |p|] + [-1]
  }

  lemma JoinForest(p: seq<int>, a: nat, b: nat)
    requires Forest(p) && 1 <= a < |p| && 1 <= b < |p|
    ensures Forest(Join(p, a, b))
  {
  }

  lemma {:induction false} JoinFollows(p: seq<int>, a: nat, b: nat, k: nat)
    requires Forest(p) && 1 <= a < |p| && 1 <= b < |p| && p[a] == -1 && p[b] == -1 && 1 <= k < |p|
    ensures Forest(Join(p, a, b))
    ensures Root(Join(p, a, b), k) == if Root(p, k) == a || Root(p, k) == b then |p| else Root(p, k)
    ensures Depth(Join(p, a, b), k) == Depth(p, k) + if Root(p, k) == a || Root(p, k) == b then 1 else 0
    decreases |p| - k
  {
    JoinForest(p, a, b);
    var q := Join(p, a, b);
    if p[k] != -1 {
      JoinFollows(p, a, b, p[k]);
      assert q[k] == p[k];
    } else if k == a || k == b {
      assert q[k] == |p| && q[|p|] == -1;
    } else {
      assert q[k] == -1;
    }
  }

  // ---------------------------------------------------------------- sums over leaves

  /** The weight of the leaves 1..i under the root r. */
  ghost function LeafSum(p: seq<int>, i: nat, r: nat, lw: seq<int>): int
    requires Forest(p) && i < |p| && i < |lw|
  {
    if i == 0 then 0 else LeafSum(p, i - 1, r, lw) + if Root(p, i) == r then lw[i] else 0
  }

  /** The Kraft sum of the leaves 1..i under r, in units of 2^-top. */
  ghost function KraftSum(p: seq<int>, i: nat, r: nat, top: nat): nat
    requires Forest(p) && i < |p| <= top
  {
    if i == 0 then 0 else KraftSum(p, i - 1, r, top) + if Root(p, i) == r then Pow2(top - Depth(p, i)) else 0
  }

  lemma {:induction false} LeafSumJoin(p: seq<int>, a: nat, b: nat, i: nat, lw: seq<int>)
    requires Forest(p) && 1 <= a < |p| && 1 <= b < |p| && p[a] == -1 && p[b] == -1 && a != b && i < |p| && i < |lw|
    ensures Forest(Join(p, a, b))
    ensures LeafSum(Join(p, a, b), i, |p|, lw) == LeafSum(p, i, a, lw) + LeafSum(p, i, b, lw)
    ensures forall r: nat :: r != a && r != b && r < |p| ==> LeafSum(Join(p, a, b), i, r, lw) == LeafSum(p, i, r, lw)
  {
    JoinForest(p, a, b);
    if i > 0 {
      LeafSumJoin(p, a, b, i - 1, lw);
      JoinFollows(p, a, b, i);
      hide Join, Forest, Root;
    }
  }

  lemma {:induction false} KraftSumJoin(p: seq<int>, a: nat, b: nat, i: nat, top: nat)
    requires Forest(p) && 1 <= a < |p| && 1 <= b < |p| && p[a] == -1 && p[b] == -1 && a != b && i < |p| < top
    ensures Forest(Join(p, a, b))
    ensures 2 * KraftSum(Join(p, a, b), i, |p|, top) == KraftSum(p, i, a, top) + KraftSum(p, i, b, top)
    ensures forall r: nat :: r != a && r != b && r < |p| ==>
              KraftSum(Join(p, a, b), i, r, top) == KraftSum(p, i, r, top)
  {
    JoinForest(p, a, b);
    if i > 0 {
      KraftSumJoin(p, a, b, i - 1, top);
      JoinFollows(p, a, b, i);
      var d := Depth(p, i);
      assert Pow2(top - d) == 2 * Pow2(top - (d + 1));
      hide Join, Forest, Root, Depth, Pow2;
    }
  }

  /** One leaf under r falls short of the whole when there is another. */
  lemma {:induction false} KraftAtLeast(p: seq<int>, i: nat, k: nat, r: nat, top: nat)
    requires Forest(p) && 1 <= k <= i < |p| <= top && Root(p, k) == r
    ensures KraftSum(p, i, r, top) >= Pow2(top - Depth(p, k))
  {
    if k < i { KraftAtLeast(p, i - 1, k, r, top); }
  }

  lemma {:induction false} KraftAtLeastTwo(p: seq<int>, i: nat, j: nat, k: nat, r: nat, top: nat)
    requires Forest(p) && 1 <= j < k <= i < |p| <= top && Root(p, j) == r && Root(p, k) == r
    ensures KraftSum(p, i, r, top) >= Pow2(top - Depth(p, j)) + Pow2(top - Depth(p, k))
  {
    if k < i {
      KraftAtLeastTwo(p, i - 1, j, k, r, top);
    } else {
      KraftAtLeast(p, i - 1, j, r, top);
    }
  }

  // ---------------------------------------------------------------- growth

  /** The least weight of a tree of height h: each tree is heavier than the two it was made
      from, and the lighter of those outweighs the children of the taller. */
  ghost function Growth(h: nat): (g: nat)
    ensures g >= 1
  {
    if h == 0 then 1 else if h == 1 then 2 else Growth(h - 1) + Growth(h - 2)
  }

  lemma {:induction false} GrowthMonotone(h: nat, k: nat)
    requires h <= k
    ensures Growth(h) <= Growth(k)
    decreases k
  {
    if h < k { GrowthMonotone(h, k - 1); }
  }

  lemma GrowthAt18()
    ensures Growth(18) == 6765
  {
    assert Growth(3) == 5 && Growth(4) == 8 && Growth(5) == 13 && Growth(6) == 21;
    assert Growth(7) == 34 && Growth(8) == 55 && Growth(9) == 89 && Growth(10) == 144;
    assert Growth(11) == 233 && Growth(12) == 377 && Growth(13) == 610 && Growth(14) == 987;
    assert Growth(15) == 1597 && Growth(16) == 2584 && Growth(17) == 4181;
  }

  lemma GrowthDoubles(h: nat)
    ensures Growth(h + 2) >= 2 * Growth(h)
  {
    GrowthMonotone(h, h + 1);
  }

  /** A tree lighter than 2^23 has height below 40. */
  lemma GrowthAt40()
    ensures Growth(40) > 0x80_0000
  {
    GrowthAt18();
    hide Growth;
    GrowthDoubles(18);
    GrowthDoubles(20);
    GrowthDoubles(22);
    GrowthDoubles(24);
    GrowthDoubles(26);
    GrowthDoubles(28);
    GrowthDoubles(30);
    GrowthDoubles(32);
    GrowthDoubles(34);
    GrowthDoubles(36);
    GrowthDoubles(38);
  }
}
