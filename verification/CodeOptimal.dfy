/** Why joining the two lightest trees gives the cheapest code (huffman.c,
    BZ2_hbMakeCodeLengths): whatever code is proposed for the leaves, there is one for the
    roots of the forest that, with the forest below it, costs no more. */
module CodeOptimal {
  import opened Bits
  import opened CodeTree
  import HuffmanCodes

  /** What the leaves 1..i cost if the roots have the code lengths d. */
  ghost function LeafCost(p: seq<int>, i: nat, d: seq<int>, lw: seq<int>): int
    requires Forest(p) && i < |p| == |d| && i < |lw|
  {
    if i == 0 then 0 else LeafCost(p, i - 1, d, lw) + lw[i] * (Depth(p, i) + d[Root(p, i)])
  }

  /** What symbols of these weights cost with the code lengths l. */
  ghost function Cost(lw: seq<int>, l: seq<int>, i: nat): int
    requires i < |lw| && i <= |l|
  {
    if i == 0 then 0 else Cost(lw, l, i - 1) + lw[i] * l[i - 1]
  }

  /** The Kraft sum of the roots among the nodes 1..i, in units of 2^-top. */
  ghost function RootKraft(p: seq<int>, d: seq<int>, i: nat, top: nat): int
    requires i < |p| == |d| && Within(d, top)
  {
    if i == 0 then 0 else RootKraft(p, d, i - 1, top) + if p[i] == -1 then Pow2(top - d[i]) else 0
  }

  ghost predicate Within(d: seq<int>, top: nat) { forall k :: 0 <= k < |d| ==> 0 <= d[k] <= top }

  /** Code lengths for the roots. */
  ghost predicate RootCode(p: seq<int>, d: seq<int>, top: nat) {
    |p| == |d| > 0 && Within(d, top) && RootKraft(p, d, |p| - 1, top) <= Pow2(top)
  }

  /** Any code lengths for the leaves. */
  ghost predicate Rival(l: seq<int>, alpha: nat, top: nat) {
    |l| == alpha && Within(l, top) && HuffmanCodes.Kraft(l, alpha, top) <= Pow2(top)
  }

  /** A code for the roots that costs no more than l. */
  ghost predicate NoDearer(p: seq<int>, d: seq<int>, alpha: nat, lw: seq<int>, l: seq<int>, top: nat) {
    Forest(p) && alpha < |p| && alpha < |lw| && alpha <= |l| && RootCode(p, d, top) && LeafCost(p, alpha, d, lw) <= Cost(lw, l, alpha)
  }

  /** The forest is no hindrance. */
  ghost predicate Promising(p: seq<int>, alpha: nat, lw: seq<int>) {
    forall l, top: nat :: Rival(l, alpha, top) ==> exists d :: NoDearer(p, d, alpha, lw, l, top)
  }

  // ---------------------------------------------------------------- changing one length

  lemma Distribute(a: int, b: int, c: int)
    ensures (a + b) * c == a * c + b * c
  {
  }

  lemma Spread(a: int, b: int, c: int)
    ensures a * (b + c) == a * b + a * c
  {
  }

  lemma {:induction false} CostChange(p: seq<int>, i: nat, d: seq<int>, lw: seq<int>, x: nat, v: int)
    requires Forest(p) && i < |p| == |d| && i < |lw| && x < |p|
    ensures LeafCost(p, i, d[x := v], lw) == LeafCost(p, i, d, lw) + LeafSum(p, i, x, lw) * (v - d[x])
  {
    if i > 0 {
      CostChange(p, i - 1, d, lw, x, v);
      hide LeafCost, Root, Depth;
      if Root(p, i) == x {
        assert lw[i] * (Depth(p, i) + v) == lw[i] * (Depth(p, i) + d[x]) + lw[i] * (v - d[x]) by {
          Spread(lw[i], Depth(p, i) + d[x], v - d[x]);
        }
        Distribute(LeafSum(p, i - 1, x, lw), lw[i], v - d[x]);
      }
      CostStep(p, i, d, lw);
      CostStep(p, i, d[x := v], lw);
    }
  }

  lemma CostStep(p: seq<int>, i: nat, d: seq<int>, lw: seq<int>)
    requires Forest(p) && 0 < i < |p| == |d| && i < |lw|
    ensures LeafCost(p, i, d, lw) == LeafCost(p, i - 1, d, lw) + lw[i] * (Depth(p, i) + d[Root(p, i)])
  {
  }

  lemma {:induction false} KraftChange(p: seq<int>, d: seq<int>, i: nat, top: nat, x: nat, v: nat)
    requires 0 < x < |p| == |d| && p[x] == -1 && i < |p| && Within(d, top) && v <= top
    ensures Within(d[x := v], top)
    ensures RootKraft(p, d[x := v], i, top) == RootKraft(p, d, i, top) + if x <= i then Pow2(top - v) - Pow2(top - d[x]) else 0
  {
    if i > 0 { KraftChange(p, d, i - 1, top, x, v); }
  }

  /** Two roots exchange their lengths: the lighter should have the longer. */
  lemma Exchange(p: seq<int>, d: seq<int>, alpha: nat, lw: seq<int>, top: nat, a: nat, x: nat)
    requires Forest(p) && RootCode(p, d, top) && alpha < |p| && alpha < |lw|
    requires 0 < a < |p| && 0 < x < |p| && p[a] == -1 && p[x] == -1
    requires LeafSum(p, alpha, a, lw) <= LeafSum(p, alpha, x, lw) && d[a] <= d[x]
    ensures RootCode(p, d[a := d[x]][x := d[a]], top)
    ensures LeafCost(p, alpha, d[a := d[x]][x := d[a]], lw) <= LeafCost(p, alpha, d, lw)
  {
    hide LeafCost, RootKraft, LeafSum, Pow2;
    var d1 := d[a := d[x]];
    if a == x {
      assert d1[x := d[a]] == d;
    } else {
      CostChange(p, alpha, d, lw, a, d[x]);
      CostChange(p, alpha, d1, lw, x, d[a]);
      KraftChange(p, d, |p| - 1, top, a, d[x]);
      KraftChange(p, d1, |p| - 1, top, x, d[a]);
      Gain(LeafSum(p, alpha, a, lw), LeafSum(p, alpha, x, lw), d[a], d[x]);
    }
  }

  lemma Gain(u: int, v: int, s: int, t: int)
    requires u <= v && s <= t
    ensures u * (t - s) + v * (s - t) <= 0
  {
    var k := t - s;
    assert v * (s - t) == -(v * k);
    assert (v - u) * k >= 0;
    Distribute(v - u, u, k);
  }

  /** A root with the longest code, other than avoid. */
  lemma {:induction false} Longest(p: seq<int>, d: seq<int>, i: nat, avoid: nat, x0: nat) returns (x: nat)
    requires i < |p| == |d| && 0 < x0 < |p| && p[x0] == -1 && x0 != avoid
    ensures 0 < x < |p| && p[x] == -1 && x != avoid && d[x] >= d[x0]
    ensures forall y :: 1 <= y <= i && p[y] == -1 && y != avoid ==> d[y] <= d[x]
  {
    if i == 0 {
      x := x0;
    } else {
      x := Longest(p, d, i - 1, avoid, x0);
      if p[i] == -1 && i != avoid && d[i] > d[x] { x := i; }
    }
  }

  // ---------------------------------------------------------------- the two longest

  /** If no root has a longer code than m bits, the sum is a multiple of 2^-m. */
  lemma {:induction false} Multiple(p: seq<int>, d: seq<int>, i: nat, top: nat, m: nat) returns (q: int)
    requires i < |p| == |d| && Within(d, top) && m <= top && forall y :: 1 <= y <= i && p[y] == -1 ==> d[y] <= m
    ensures RootKraft(p, d, i, top) == q * Pow2(top - m)
  {
    if i == 0 {
      q := 0;
    } else {
      q := Multiple(p, d, i - 1, top, m);
      if p[i] == -1 {
        Pow2Sum(m - d[i], top - m);
        Distribute(q, Pow2(m - d[i]), Pow2(top - m));
        hide Pow2;
        q := q + Pow2(m - d[i]);
      }
    }
  }

  lemma NoMore(q: int, u: int, n: int)
    requires u > 0 && q * u < n * u + u
    ensures q <= n
  {
    Distribute(n, 1, u);
    if q >= n + 1 { More(q - n - 1, n + 1, u); }
  }

  lemma More(e: int, n: int, u: int)
    requires e >= 0 && u > 0
    ensures (e + n) * u >= n * u
  {
    Distribute(e, n, u);
  }

  /** The longest code can be cut to the length of the second longest. */
  lemma Shortened(p: seq<int>, d: seq<int>, top: nat, a: nat, b: nat)
    requires RootCode(p, d, top) && 0 < a < |p| && 0 < b < |p| && p[a] == -1 && p[b] == -1 && a != b
    requires d[b] <= d[a] && forall y :: 1 <= y < |p| && p[y] == -1 && y != a ==> d[y] <= d[b]
    ensures RootCode(p, d[a := d[b]], top)
  {
    var d1, n, m := d[a := d[b]], |p| - 1, d[b];
    KraftChange(p, d, n, top, a, m);
    var q := Multiple(p, d1, n, top, m);
    Pow2Sum(m, top - m);
    hide Pow2, RootKraft;
    if d[a] == m {
      assert d1 == d;
    } else {
      assert RootKraft(p, d1, n, top) < Pow2(top) + Pow2(top - m);
      NoMore(q, Pow2(top - m), Pow2(m));
      More(Pow2(m) - q, q, Pow2(top - m));
    }
  }

  lemma {:induction false} AtLeastOne(p: seq<int>, d: seq<int>, i: nat, top: nat, a: nat)
    requires i < |p| == |d| && Within(d, top) && 0 < a < |p| && p[a] == -1
    ensures RootKraft(p, d, i, top) >= if a <= i then Pow2(top - d[a]) else 0
  {
    if i > 0 { AtLeastOne(p, d, i - 1, top, a); }
  }

  lemma {:induction false} AtLeastTwo(p: seq<int>, d: seq<int>, i: nat, top: nat, a: nat, b: nat)
    requires i < |p| == |d| && Within(d, top) && 0 < a < b <= i && p[a] == -1 && p[b] == -1
    ensures RootKraft(p, d, i, top) >= Pow2(top - d[a]) + Pow2(top - d[b])
  {
    if i == b { AtLeastOne(p, d, i - 1, top, a); } else { AtLeastTwo(p, d, i - 1, top, a, b); }
  }

  /** With two roots, neither has the empty code. */
  lemma NotEmpty(p: seq<int>, d: seq<int>, top: nat, a: nat, b: nat)
    requires RootCode(p, d, top) && 0 < a < |p| && 0 < b < |p| && p[a] == -1 && p[b] == -1 && a != b
    ensures d[a] >= 1
  {
    if a < b { AtLeastTwo(p, d, |p| - 1, top, a, b); } else { AtLeastTwo(p, d, |p| - 1, top, b, a); }
  }

  // ---------------------------------------------------------------- joining

  lemma {:induction false} KraftJoin(p: seq<int>, d: seq<int>, i: nat, top: nat, a: nat, b: nat)
    requires 0 < a < |p| == |d| && 0 < b < |p| && a != b && p[a] == -1 && p[b] == -1 && i < |p| && Within(d, top)
    requires d[a] == d[b] >= 1
    ensures Within(d + [d[a] - 1], top)
    ensures RootKraft(Join(p, a, b), d + [d[a] - 1], i, top)
         == RootKraft(p, d, i, top) - (if a <= i then Pow2(top - d[a]) else 0) - if b <= i then Pow2(top - d[a]) else 0
  {
    if i > 0 {
      KraftJoin(p, d, i - 1, top, a, b);
      var q := Join(p, a, b);
      assert i != a && i != b ==> q[i] == p[i];
      assert q[a] == |p| && q[b] == |p|;
      hide Pow2, Join;
    }
  }

  lemma {:induction false} CostJoin(p: seq<int>, i: nat, d: seq<int>, lw: seq<int>, a: nat, b: nat)
    requires Forest(p) && 0 < a < |p| == |d| && 0 < b < |p| && a != b && p[a] == -1 && p[b] == -1 && i < |p| && i < |lw|
    requires d[a] == d[b]
    ensures Forest(Join(p, a, b)) && LeafCost(Join(p, a, b), i, d + [d[a] - 1], lw) == LeafCost(p, i, d, lw)
  {
    JoinForest(p, a, b);
    if i > 0 {
      CostJoin(p, i - 1, d, lw, a, b);
      JoinFollows(p, a, b, i);
      hide Join, Root, Depth, LeafCost;
      CostStep(p, i, d, lw);
      CostStep(Join(p, a, b), i, d + [d[a] - 1], lw);
    }
  }

  lemma JoinedCode(p: seq<int>, d: seq<int>, top: nat, a: nat, b: nat)
    requires RootCode(p, d, top) && 0 < a < |p| && 0 < b < |p| && a != b && p[a] == -1 && p[b] == -1 && d[a] == d[b] >= 1
    ensures RootCode(Join(p, a, b), d + [d[a] - 1], top)
  {
    var n := |p|;
    KraftJoin(p, d, n - 1, top, a, b);
    assert Join(p, a, b)[n] == -1;
    assert Pow2(top - (d[a] - 1)) == 2 * Pow2(top - d[a]);
    hide Join, Pow2;
  }

  // ---------------------------------------------------------------- one merge

  /** a and b are lightest among the roots. */
  ghost predicate LightRoots(p: seq<int>, alpha: nat, lw: seq<int>, a: nat, b: nat)
    requires Forest(p) && alpha < |p| && alpha < |lw|
  {
    && 0 < a < |p| && 0 < b < |p| && a != b && p[a] == -1 && p[b] == -1
    && (forall x: nat :: 1 <= x < |p| && p[x] == -1 ==> LeafSum(p, alpha, a, lw) <= LeafSum(p, alpha, x, lw))
    && (forall x: nat :: 1 <= x < |p| && p[x] == -1 && x != a ==> LeafSum(p, alpha, b, lw) <= LeafSum(p, alpha, x, lw))
  }

  /** A code for the roots can be changed so that the two lightest have the two longest codes,
      of equal length, and so leaves room for joining them. */
  lemma MergeCode(p: seq<int>, d: seq<int>, alpha: nat, lw: seq<int>, top: nat, a: nat, b: nat) returns (d': seq<int>)
    requires Forest(p) && alpha < |p| && alpha < |lw| && LightRoots(p, alpha, lw, a, b) && RootCode(p, d, top)
    requires LeafSum(p, alpha, a, lw) >= 0
    ensures Forest(Join(p, a, b)) && RootCode(Join(p, a, b), d', top)
    ensures LeafCost(Join(p, a, b), alpha, d', lw) <= LeafCost(p, alpha, d, lw)
  {
    hide LeafCost, RootKraft, LeafSum, Pow2, Join;
    var x := Longest(p, d, |p| - 1, 0, a);
    Exchange(p, d, alpha, lw, top, a, x);
    var d1 := d[a := d[x]][x := d[a]];
    var y := Longest(p, d1, |p| - 1, a, b);
    Exchange(p, d1, alpha, lw, top, b, y);
    var d2 := d1[b := d1[y]][y := d1[b]];
    Shortened(p, d2, top, a, b);
    CostChange(p, alpha, d2, lw, a, d2[b]);
    Gain(0, LeafSum(p, alpha, a, lw), d2[b], d2[a]);
    var d3 := d2[a := d2[b]];
    NotEmpty(p, d3, top, a, b);
    CostJoin(p, alpha, d3, lw, a, b);
    JoinedCode(p, d3, top, a, b);
    d' := d3 + [d3[a] - 1];
  }

  /** Joining the two lightest roots keeps the forest promising. */
  lemma MergeKeeps(p: seq<int>, alpha: nat, lw: seq<int>, a: nat, b: nat)
    requires Forest(p) && alpha < |p| && alpha < |lw| && LightRoots(p, alpha, lw, a, b) && LeafSum(p, alpha, a, lw) >= 0
    requires Promising(p, alpha, lw)
    ensures Promising(Join(p, a, b), alpha, lw)
  {
    hide LeafCost, RootCode, LeafSum, Rival, Cost;
    assert a < |p| && b < |p|;
    forall l, top: nat | Rival(l, alpha, top) ensures exists d :: NoDearer(Join(p, a, b), d, alpha, lw, l, top) {
      var d :| NoDearer(p, d, alpha, lw, l, top);
      var d' := MergeCode(p, d, alpha, lw, top, a, b);
      assert NoDearer(Join(p, a, b), d', alpha, lw, l, top);
    }
  }

  // ---------------------------------------------------------------- the beginning and the end

  lemma {:induction false} AloneCosts(p: seq<int>, l: seq<int>, i: nat, lw: seq<int>, top: nat)
    requires i <= |l| && |p| == |l| + 1 && i < |lw| && Within(l, top) && forall k :: 1 <= k < |p| ==> p[k] == -1
    ensures Within([0] + l, top) && Forest(p)
    ensures LeafCost(p, i, [0] + l, lw) == Cost(lw, l, i) && RootKraft(p, [0] + l, i, top) == HuffmanCodes.Kraft(l, i, top)
  {
    if i > 0 {
      AloneCosts(p, l, i - 1, lw, top);
      hide Pow2;
    }
  }

  /** At first every leaf is a root. */
  lemma AlonePromises(p: seq<int>, alpha: nat, lw: seq<int>)
    requires |p| == alpha + 1 && alpha < |lw| && forall k :: 1 <= k <= alpha ==> p[k] == -1
    ensures Promising(p, alpha, lw)
  {
    hide LeafCost, RootKraft, Cost;
    forall l, top: nat | Rival(l, alpha, top) ensures exists d :: NoDearer(p, d, alpha, lw, l, top) {
      AloneCosts(p, l, alpha, lw, top);
      assert NoDearer(p, [0] + l, alpha, lw, l, top);
    }
  }

  lemma {:induction false} DepthsCost(p: seq<int>, i: nat, d: seq<int>, lw: seq<int>, lens: seq<int>, top: nat)
    requires Forest(p) && i < |p| == |d| && i < |lw| && i <= |lens| && Within(d, top)
    requires forall k :: 0 <= k < i ==> lens[k] == Depth(p, k + 1)
    requires forall k :: 1 <= k <= i ==> lw[k] >= 0
    ensures Cost(lw, lens, i) <= LeafCost(p, i, d, lw)
  {
    if i > 0 {
      DepthsCost(p, i - 1, d, lw, lens, top);
      hide Depth, Root;
      Spread(lw[i], Depth(p, i), d[Root(p, i)]);
      assert lw[i] * d[Root(p, i)] >= 0;
    }
  }

  /** No code is cheaper than lens. */
  ghost predicate Optimal(lw: seq<int>, lens: seq<int>) {
    |lw| == |lens| + 1 && forall l, top: nat :: Rival(l, |lens|, top) ==> Cost(lw, lens, |lens|) <= Cost(lw, l, |lens|)
  }

  /** The depths of the leaves in a promising forest are optimal. */
  lemma PromiseKept(p: seq<int>, alpha: nat, lw: seq<int>, lens: seq<int>)
    requires Promising(p, alpha, lw) && Forest(p) && alpha < |p| && |lw| == alpha + 1 && |lens| == alpha
    requires forall k :: 0 <= k < alpha ==> lens[k] == Depth(p, k + 1)
    requires forall k :: 1 <= k <= alpha ==> lw[k] >= 0
    ensures Optimal(lw, lens)
  {
    hide LeafCost, Cost, Rival, Depth;
    forall l, top: nat | Rival(l, alpha, top) ensures Cost(lw, lens, alpha) <= Cost(lw, l, alpha) {
      RivalSize(l, alpha, top);
      var d :| NoDearer(p, d, alpha, lw, l, top);
      DepthsCost(p, alpha, d, lw, lens, top);
    }
  }

  lemma RivalSize(l: seq<int>, alpha: nat, top: nat)
    requires Rival(l, alpha, top)
    ensures |l| == alpha
  {
  }
}
