/** BZ2_hbMakeCodeLengths (huffman.c): Huffman's algorithm on a heap, with weights that carry
    the height of the tree in their low byte, repeated with flattened weights until no code
    is too long. */
module HuffmanLengths {
  import opened Bits
  import opened CodeTree
  import opened CodeOptimal
  import opened HuffmanCodes
  import opened WeightHeap

  const TOP := 600

  /** DEPTHOF and WEIGHTOF. */
  function HeightOf(x: nat): nat { x % 256 }

  function WeightOf(x: nat): nat { x / 256 }

  lemma WeightMonotone(x: nat, y: nat)
    requires x <= y
    ensures WeightOf(x) <= WeightOf(y)
  {
  }

  /** The heap holds every root once. */
  ghost predicate Roots(p: seq<int>, hs: multiset<int>) {
    forall x :: hs[x] == if 1 <= x < |p| && p[x] == -1 then 1 else 0
  }

  ghost predicate Shape(p: seq<int>, w: seq<int>, alpha: nat, lw: seq<int>, hs: multiset<int>) {
    && Forest(p) && Roots(p, hs) && alpha < |p| <= |w| && alpha < |lw| && |p| < TOP
    && (forall i :: 1 <= i <= alpha ==> 1 <= lw[i])
    && (forall x :: x in hs ==> 0 < x < |w| && w[x] >= 0)
  }

  /** The low byte of a root's weight bounds the depth of its leaves; the rest is the sum of
      their weights. */
  ghost predicate Summed(p: seq<int>, w: seq<int>, alpha: nat, lw: seq<int>, hs: multiset<int>)
    requires Shape(p, w, alpha, lw, hs)
  {
    && (forall r: nat :: r in hs ==> LeafSum(p, alpha, r, lw) == WeightOf(w[r]))
    && (forall r: nat :: r in hs ==> KraftSum(p, alpha, r, TOP) == Pow2(TOP))
    && (forall i: nat :: 1 <= i <= alpha ==> Root(p, i) in hs && Depth(p, i) <= HeightOf(w[Root(p, i)]))
  }

  /** High trees are heavy, and so is everything that was passed over while they were made. */
  ghost predicate Grown(w: seq<int>, hs: multiset<int>)
    requires forall x :: x in hs ==> 0 < x < |w| && w[x] >= 0
  {
    && (forall x :: x in hs ==> Growth(HeightOf(w[x])) <= WeightOf(w[x]))
    && (forall x, y :: x in hs && y in hs && HeightOf(w[x]) >= 1 ==> Growth(HeightOf(w[x]) - 1) <= WeightOf(w[y]))
  }

  ghost predicate Tree(p: seq<int>, w: seq<int>, alpha: nat, lw: seq<int>, hs: multiset<int>) {
    Shape(p, w, alpha, lw, hs) && Summed(p, w, alpha, lw, hs) && Grown(w, hs)
  }

  /** ADDWEIGHTS; the two parts do not overlap as long as the height fits its byte. */
  function AddWeights(a: nat, b: nat): (c: nat)
  {
    256 * (WeightOf(a) + WeightOf(b)) + 1 + (if HeightOf(a) > HeightOf(b) then HeightOf(a) else HeightOf(b))
  }

  ghost function Total(lw: seq<int>, i: nat): int
    requires i < |lw|
  {
    if i == 0 then 0 else Total(lw, i - 1) + lw[i]
  }

  lemma {:induction false} TwoSums(p: seq<int>, i: nat, a: nat, b: nat, lw: seq<int>)
    requires Forest(p) && i < |p| && i < |lw| && a != b && forall k :: 1 <= k <= i ==> 1 <= lw[k]
    ensures LeafSum(p, i, a, lw) + LeafSum(p, i, b, lw) <= Total(lw, i)
    ensures LeafSum(p, i, a, lw) >= 0
  {
    if i > 0 { TwoSums(p, i - 1, a, b, lw); }
  }

  // ---------------------------------------------------------------- one merge

  /** a and b are the lightest roots. */
  ghost predicate Lightest2(w: seq<int>, hs: multiset<int>, a: int, b: int)
    requires forall x :: x in hs ==> 0 < x < |w| && w[x] >= 0
  {
    && a in hs && b in hs - multiset{a}
    && (forall y :: y in hs ==> w[a] <= w[y]) && (forall y :: y in hs - multiset{a} ==> w[b] <= w[y])
  }

  ghost function After(hs: multiset<int>, a: int, b: int, m: int): multiset<int> {
    hs - multiset{a} - multiset{b} + multiset{m}
  }

  lemma RootsAfter(p: seq<int>, hs: multiset<int>, a: nat, b: nat)
    requires Forest(p) && Roots(p, hs) && a in hs && b in hs - multiset{a}
    ensures a != b && 1 <= a < |p| && 1 <= b < |p| && p[a] == -1 && p[b] == -1
    ensures Forest(Join(p, a, b)) && Roots(Join(p, a, b), After(hs, a, b, |p|))
  {
    assert hs[a] == 1 && hs[b] == 1;
    JoinForest(p, a, b);
  }

  lemma MergeHeight(p: seq<int>, w: seq<int>, alpha: nat, lw: seq<int>, hs: multiset<int>, a: nat, b: nat)
    requires Tree(p, w, alpha, lw, hs) && a in hs && b in hs && a != b && Total(lw, alpha) < 0x80_0000
    ensures WeightOf(w[a]) + WeightOf(w[b]) <= Total(lw, alpha)
    ensures HeightOf(w[a]) < 40 && HeightOf(w[b]) < 40
  {
    hide Growth, LeafSum, KraftSum, Total, Pow2;
    TwoSums(p, alpha, a, b, lw);
    TwoSums(p, alpha, b, a, lw);
    HeightBound(HeightOf(w[a]), WeightOf(w[a]));
    HeightBound(HeightOf(w[b]), WeightOf(w[b]));
  }

  lemma HeightBound(h: nat, x: nat)
    requires Growth(h) <= x < 0x80_0000
    ensures h < 40
  {
    GrowthAt40();
    hide Growth;
    if h >= 40 { GrowthMonotone(40, h); }
  }

  lemma AddedParts(a: nat, b: nat)
    requires HeightOf(a) < 40 && HeightOf(b) < 40
    ensures WeightOf(AddWeights(a, b)) == WeightOf(a) + WeightOf(b)
    ensures HeightOf(AddWeights(a, b)) == 1 + if HeightOf(a) > HeightOf(b) then HeightOf(a) else HeightOf(b)
  {
  }

  /** Whatever is left is at least as heavy as the two that were taken. */
  lemma LeftOver(w: seq<int>, hs: multiset<int>, a: nat, b: nat, m: nat, y: int)
    requires forall x :: x in hs ==> 0 < x < |w| && w[x] >= 0
    requires Lightest2(w, hs, a, b) && m !in hs && y in After(hs, a, b, m)
    ensures y != m ==> y in hs && w[a] <= w[b] <= w[y]
  {
    if y != m { assert y in hs - multiset{a}; }
  }

  /** A sum is heavy enough for its height if its parts are. */
  lemma GrownSum(u: nat, v: nat)
    requires u <= v && HeightOf(u) < 40 && HeightOf(v) < 40
    requires Growth(HeightOf(u)) <= WeightOf(u) && Growth(HeightOf(v)) <= WeightOf(v)
    requires HeightOf(u) >= 1 ==> Growth(HeightOf(u) - 1) <= WeightOf(u)
    requires HeightOf(v) >= 1 ==> Growth(HeightOf(v) - 1) <= WeightOf(u)
    ensures var c := AddWeights(u, v);
            && HeightOf(c) >= 1 && Growth(HeightOf(c)) <= WeightOf(c)
            && Growth(HeightOf(c) - 1) <= WeightOf(v) <= WeightOf(c) && WeightOf(u) <= WeightOf(c)
  {
    AddedParts(u, v);
    WeightMonotone(u, v);
    NewGrowth(if HeightOf(u) > HeightOf(v) then HeightOf(u) else HeightOf(v));
    hide Growth, AddWeights, HeightOf, WeightOf;
  }

  /** The new root is heavy enough for its height. */
  lemma GrownNew(w: seq<int>, hs: multiset<int>, a: nat, b: nat)
    requires forall x :: x in hs ==> 0 < x < |w| && w[x] >= 0
    requires Grown(w, hs) && Lightest2(w, hs, a, b) && HeightOf(w[a]) < 40 && HeightOf(w[b]) < 40
    ensures a in hs && b in hs
    ensures var c := AddWeights(w[a], w[b]);
            && HeightOf(c) >= 1 && Growth(HeightOf(c)) <= WeightOf(c)
            && Growth(HeightOf(c) - 1) <= WeightOf(w[b]) <= WeightOf(c) && WeightOf(w[a]) <= WeightOf(c)
  {
    hide Growth, AddWeights, HeightOf, WeightOf;
    assert b in hs;
    GrownSum(w[a], w[b]);
  }

  ghost predicate GrownPair(w: seq<int>, x: int, y: int) {
    && 0 < x < |w| && 0 < y < |w| && w[x] >= 0 && w[y] >= 0
    && Growth(HeightOf(w[x])) <= WeightOf(w[x])
    && (HeightOf(w[x]) >= 1 ==> Growth(HeightOf(w[x]) - 1) <= WeightOf(w[y]))
  }

  lemma PairAfter(w: seq<int>, hs: multiset<int>, a: nat, b: nat, m: nat, x: int, y: int)
    requires forall x :: x in hs ==> 0 < x < |w| && w[x] >= 0
    requires Grown(w, hs) && Lightest2(w, hs, a, b) && m !in hs && 0 < m < |w|
    requires HeightOf(w[a]) < 40 && HeightOf(w[b]) < 40
    requires x in After(hs, a, b, m) && y in After(hs, a, b, m)
    ensures GrownPair(w[m := AddWeights(w[a], w[b])], x, y)
  {
    hide Growth, AddWeights, After, HeightOf, WeightOf, Lightest2;
    GrownNew(w, hs, a, b);
    LeftOver(w, hs, a, b, m, x);
    LeftOver(w, hs, a, b, m, y);
    if y != m { WeightMonotone(w[b], w[y]); }
  }

  lemma GrownAfter(w: seq<int>, hs: multiset<int>, a: nat, b: nat, m: nat)
    requires forall x :: x in hs ==> 0 < x < |w| && w[x] >= 0
    requires Grown(w, hs) && Lightest2(w, hs, a, b) && m !in hs && 0 < m < |w|
    requires HeightOf(w[a]) < 40 && HeightOf(w[b]) < 40
    ensures forall x :: x in After(hs, a, b, m) ==> 0 < x < |w| && w[m := AddWeights(w[a], w[b])][x] >= 0
    ensures Grown(w[m := AddWeights(w[a], w[b])], After(hs, a, b, m))
  {
    var w' := w[m := AddWeights(w[a], w[b])];
    var hs' := After(hs, a, b, m);
    forall x, y | x in hs' && y in hs' ensures GrownPair(w', x, y) {
      PairAfter(w, hs, a, b, m, x, y);
    }
    PairsGrown(w', hs');
  }

  lemma PairsGrown(w: seq<int>, hs: multiset<int>)
    requires forall x, y :: x in hs && y in hs ==> GrownPair(w, x, y)
    ensures forall x :: x in hs ==> 0 < x < |w| && w[x] >= 0
    ensures Grown(w, hs)
  {
    forall x | x in hs ensures GrownPair(w, x, x) {}
  }

  lemma NewGrowth(h: nat)
    ensures Growth(h + 1) == if h == 0 then 2 else Growth(h) + Growth(h - 1)
    ensures Growth(0) == 1
  {
  }

  lemma SummedAfter(p: seq<int>, w: seq<int>, alpha: nat, lw: seq<int>, hs: multiset<int>, a: nat, b: nat)
    requires Shape(p, w, alpha, lw, hs) && Summed(p, w, alpha, lw, hs) && |p| < |w| && |p| + 1 < TOP
    requires a in hs && b in hs - multiset{a} && HeightOf(w[a]) < 40 && HeightOf(w[b]) < 40
    ensures var w' := w[|p| := AddWeights(w[a], w[b])];
            && Shape(Join(p, a, b), w', alpha, lw, After(hs, a, b, |p|))
            && Summed(Join(p, a, b), w', alpha, lw, After(hs, a, b, |p|))
  {
    hide LeafSum, KraftSum, Join, AddWeights, Pow2, Forest, HeightOf, WeightOf, Root, Depth;
    RootsAfter(p, hs, a, b);
    AddedParts(w[a], w[b]);
    LeafSumJoin(p, a, b, alpha, lw);
    KraftSumJoin(p, a, b, alpha, TOP);
    assert hs[|p|] == 0;
    forall i: nat | 1 <= i <= alpha
      ensures var w' := w[|p| := AddWeights(w[a], w[b])];
              var q := Join(p, a, b);
              Root(q, i) in After(hs, a, b, |p|) && Depth(q, i) <= HeightOf(w'[Root(q, i)])
    {
      JoinFollows(p, a, b, i);
    }
  }

  /** Merging the two lightest roots keeps everything. */
  lemma TreeAfter(p: seq<int>, w: seq<int>, alpha: nat, lw: seq<int>, hs: multiset<int>, a: nat, b: nat)
    requires Tree(p, w, alpha, lw, hs) && Lightest2(w, hs, a, b) && Total(lw, alpha) < 0x80_0000
    requires |p| < |w| && |p| + 1 < TOP
    ensures a < |p| && b < |p|
    ensures Tree(Join(p, a, b), w[|p| := AddWeights(w[a], w[b])], alpha, lw, After(hs, a, b, |p|))
  {
    RootsAfter(p, hs, a, b);
    assert b in hs && hs[|p|] == 0;
    MergeHeight(p, w, alpha, lw, hs, a, b);
    hide Summed, Grown, Join, AddWeights, HeightOf, WeightOf;
    SummedAfter(p, w, alpha, lw, hs, a, b);
    GrownAfter(w, hs, a, b, |p|);
  }

  /** The lightest on the heap are the lightest roots. */
  lemma LightFrom(p: seq<int>, w: seq<int>, alpha: nat, lw: seq<int>, hs: multiset<int>, a: nat, b: nat)
    requires Tree(p, w, alpha, lw, hs) && Lightest2(w, hs, a, b)
    ensures Forest(p) && alpha < |p| && alpha < |lw| && LightRoots(p, alpha, lw, a, b) && LeafSum(p, alpha, a, lw) >= 0
  {
    hide LeafSum, KraftSum, Growth, Grown, WeightOf, HeightOf, Pow2;
    RootsAfter(p, hs, a, b);
    forall x: nat | 1 <= x < |p| && p[x] == -1 ensures LeafSum(p, alpha, a, lw) <= LeafSum(p, alpha, x, lw) {
      assert x in hs;
      WeightMonotone(w[a], w[x]);
    }
    forall x: nat | 1 <= x < |p| && p[x] == -1 && x != a ensures LeafSum(p, alpha, b, lw) <= LeafSum(p, alpha, x, lw) {
      assert x in hs - multiset{a} && b in hs;
      WeightMonotone(w[b], w[x]);
    }
  }

  // ---------------------------------------------------------------- the first forest

  ghost predicate Alone(p: seq<int>, alpha: nat) {
    |p| == alpha + 1 && p[0] == -2 && forall k :: 1 <= k <= alpha ==> p[k] == -1
  }

  lemma {:induction false} AloneSums(p: seq<int>, alpha: nat, i: nat, r: nat, lw: seq<int>)
    requires Alone(p, alpha) && i <= alpha < |lw| && alpha + 1 < TOP && 1 <= r <= alpha
    ensures Forest(p)
    ensures LeafSum(p, i, r, lw) == if r <= i then lw[r] else 0
    ensures KraftSum(p, i, r, TOP) == if r <= i then Pow2(TOP) else 0
  {
    if i > 0 {
      AloneSums(p, alpha, i - 1, r, lw);
      hide Pow2;
    }
  }

  /** The weights of the leaves as they stand in the array. */
  ghost predicate LeafWeights(w: seq<int>, alpha: nat, lw: seq<int>) {
    && alpha < |w| && alpha < |lw|
    && forall i :: 1 <= i <= alpha ==> lw[i] >= 1 && w[i] == 256 * lw[i]
  }

  lemma AloneTree(p: seq<int>, w: seq<int>, alpha: nat, lw: seq<int>, hs: multiset<int>)
    requires Alone(p, alpha) && LeafWeights(w, alpha, lw) && alpha + 1 < TOP
    requires forall x :: hs[x] == if 1 <= x <= alpha then 1 else 0
    ensures Tree(p, w, alpha, lw, hs)
  {
    forall r: nat | r in hs
      ensures LeafSum(p, alpha, r, lw) == WeightOf(w[r]) && KraftSum(p, alpha, r, TOP) == Pow2(TOP)
    {
      AloneSums(p, alpha, alpha, r, lw);
    }
    hide KraftSum, LeafSum, Pow2;
    forall r | r in hs ensures HeightOf(w[r]) == 0 && WeightOf(w[r]) == lw[r] {}
    hide HeightOf, WeightOf;
    NewGrowth(0);
  }

  // ---------------------------------------------------------------- the algorithm

  /** The state of one construction: the forest in parent, its roots in the heap. */
  ghost predicate Building(heap: seq<int>, weight: seq<int>, parent: seq<int>, nHeap: nat, nNodes: nat, alpha: nat,
                           lw: seq<int>)
  {
    && |heap| == 260 && |weight| == 516 && |parent| == 516 && alpha <= 258
    && nHeap < |heap| && nNodes < |parent| && nNodes + nHeap == 2 * alpha
    && Ordered(heap, nHeap, weight) && LeafWeights(weight, alpha, lw)
    && Tree(parent[..nNodes + 1], weight, alpha, lw, Contents(heap, nHeap)) && Promising(parent[..nNodes + 1], alpha, lw)
  }

  method PopTwo(heap: array<int>, weight: array<int>, nHeap: nat) returns (n1: int, n2: int)
    requires heap != weight && Ordered(heap[..], nHeap, weight[..]) && nHeap >= 2
    modifies heap
    ensures heap.Length >= nHeap && Ordered(heap[..], nHeap - 2, weight[..])
    ensures n1 in old(Contents(heap[..], nHeap)) && n2 in old(Contents(heap[..], nHeap)) - multiset{n1}
    ensures Contents(heap[..], nHeap - 2) == old(Contents(heap[..], nHeap)) - multiset{n1} - multiset{n2}
    ensures forall x :: x in old(Contents(heap[..], nHeap)) ==> 0 < x < weight.Length && weight[n1] <= weight[x]
    ensures forall x :: x in old(Contents(heap[..], nHeap)) - multiset{n1} ==> weight[n2] <= weight[x]
  {
    hide Contents;
    n1 := Pop(heap, weight, nHeap);
    n2 := Pop(heap, weight, nHeap - 1);
  }

  lemma MergeRoots(p: seq<int>, w: seq<int>, alpha: nat, lw: seq<int>, hs: multiset<int>, a: nat, b: nat)
    requires Tree(p, w, alpha, lw, hs) && Lightest2(w, hs, a, b) && Total(lw, alpha) < 0x80_0000
    requires |p| < |w| && |p| + 1 < TOP && Promising(p, alpha, lw)
    ensures a < |p| && b < |p|
    ensures Tree(Join(p, a, b), w[|p| := AddWeights(w[a], w[b])], alpha, lw, After(hs, a, b, |p|))
    ensures Promising(Join(p, a, b), alpha, lw)
  {
    hide Tree, Total, AddWeights, Promising, LightRoots, LeafSum;
    TreeAfter(p, w, alpha, lw, hs, a, b);
    LightFrom(p, w, alpha, lw, hs, a, b);
    MergeKeeps(p, alpha, lw, a, b);
  }

  /** The two lightest trees are taken from the heap, joined and put back. */
  method MergeTwo(heap: array<int>, weight: array<int>, parent: array<int>, nHeap: nat, nNodes: nat, alpha: nat,
                  ghost lw: seq<int>)
    requires heap != weight && heap != parent && weight != parent
    requires Building(heap[..], weight[..], parent[..], nHeap, nNodes, alpha, lw) && nHeap >= 2
    requires Total(lw, alpha) < 0x80_0000
    modifies heap, weight, parent
    ensures Building(heap[..], weight[..], parent[..], nHeap - 1, nNodes + 1, alpha, lw)
  {
    hide Ordered, Tree, Contents, LeafWeights, Total, AddWeights, Promising, LightRoots, LeafSum;
    ghost var hs, w, p := Contents(heap[..], nHeap), weight[..], parent[..nNodes + 1];
    TreeNodes(p, w, alpha, lw, hs);
    var n1, n2 := PopTwo(heap, weight, nHeap);
    assert Lightest2(w, hs, n1, n2);
    MergeRoots(p, w, alpha, lw, hs, n1, n2);
    LeavesKept(w, alpha, lw, nNodes + 1, AddWeights(w[n1], w[n2]));
    OrderedKeeps(heap[..], nHeap - 2, w, nNodes + 1, AddWeights(w[n1], w[n2]));
    Link(weight, parent, nNodes + 1, n1, n2);
    Push(heap, weight, nHeap - 2, nNodes + 1);
    assert Contents(heap[..], nHeap - 1) == After(hs, n1, n2, nNodes + 1);
  }

  method Link(weight: array<int>, parent: array<int>, m: nat, n1: nat, n2: nat)
    requires weight != parent && n1 < m && n2 < m && m < weight.Length && m < parent.Length
    requires weight[n1] >= 0 && weight[n2] >= 0
    modifies weight, parent
    ensures parent[..m + 1] == Join(old(parent[..m]), n1, n2)
    ensures weight[..] == old(weight[..])[m := AddWeights(old(weight[n1]), old(weight[n2]))]
  {
    parent[n1] := m;
    parent[n2] := m;
    weight[m] := AddWeights(weight[n1], weight[n2]);
    parent[m] := -1;
  }

  lemma TreeNodes(p: seq<int>, w: seq<int>, alpha: nat, lw: seq<int>, hs: multiset<int>)
    requires Tree(p, w, alpha, lw, hs)
    ensures forall x :: x in hs ==> 0 < x < |p| <= |w| && w[x] >= 0
    ensures |p| !in hs && alpha < |p|
  {
  }

  lemma LeavesKept(w: seq<int>, alpha: nat, lw: seq<int>, m: nat, c: int)
    requires LeafWeights(w, alpha, lw) && alpha < m < |w|
    ensures LeafWeights(w[m := c], alpha, lw)
  {
  }

  /** Every symbol is put on the heap as a tree of its own. */
  method FirstForest(heap: array<int>, weight: array<int>, parent: array<int>, alphaSize: nat, ghost lw: seq<int>)
    requires heap != weight && heap != parent && weight != parent
    requires heap.Length == 260 && weight.Length == 516 && parent.Length == 516 && 1 <= alphaSize <= 258
    requires LeafWeights(weight[..], alphaSize, lw)
    modifies heap, weight, parent
    ensures Building(heap[..], weight[..], parent[..], alphaSize, alphaSize, alphaSize, lw)
    ensures forall k :: 1 <= k < weight.Length ==> weight[k] == old(weight[k])
  {
    hide Contents, Tree, LeafWeights, Promising;
    heap[0] := 0;
    Sentinel(weight[..], alphaSize, lw);
    weight[0] := 0;
    parent[0] := -2;
    ghost var w := weight[..];
    assert w == old(weight[..])[0 := 0];
    NoContents(heap[..]);
    for i := 1 to alphaSize + 1
      invariant weight[..] == w && Ordered(heap[..], i - 1, w)
      invariant UpTo(Contents(heap[..], i - 1), i)
      invariant parent[0] == -2 && forall k :: 1 <= k < i ==> parent[k] == -1
    {
      LeafWeight(w, alphaSize, lw, i);
      parent[i] := -1;
      Push(heap, weight, i - 1, i);
    }
    AloneTree(parent[..alphaSize + 1], w, alphaSize, lw, Contents(heap[..], alphaSize));
    LeafWeightsPositive(w, alphaSize, lw);
    AlonePromises(parent[..alphaSize + 1], alphaSize, lw);
  }

  lemma Sentinel(w: seq<int>, alpha: nat, lw: seq<int>)
    requires LeafWeights(w, alpha, lw)
    ensures LeafWeights(w[0 := 0], alpha, lw)
  {
  }

  lemma LeafWeight(w: seq<int>, alpha: nat, lw: seq<int>, i: nat)
    requires LeafWeights(w, alpha, lw) && 1 <= i <= alpha
    ensures i < |w| && w[i] >= 256
  {
  }

  ghost predicate UpTo(hs: multiset<int>, i: int) {
    forall x :: hs[x] == if 1 <= x < i then 1 else 0
  }

  lemma NoContents(v: seq<int>)
    requires |v| > 0
    ensures Contents(v, 0) == multiset{}
  {
  }

  /** All leaves hang under one root, and its height is bounded by the total weight. */
  ghost predicate Coded(p: seq<int>, alpha: nat, r: nat, h: nat, total: int) {
    && Forest(p) && alpha < |p| < TOP && Growth(h) <= total
    && KraftSum(p, alpha, r, TOP) == Pow2(TOP)
    && forall i: nat :: 1 <= i <= alpha ==> Root(p, i) == r && Depth(p, i) <= h
  }

  lemma {:induction false} AllUnder(p: seq<int>, i: nat, r: nat, lw: seq<int>)
    requires Forest(p) && i < |p| && i < |lw| && forall k: nat :: 1 <= k <= i ==> Root(p, k) == r
    ensures LeafSum(p, i, r, lw) == Total(lw, i)
  {
    if i > 0 { AllUnder(p, i - 1, r, lw); }
  }

  lemma OneRoot(p: seq<int>, w: seq<int>, alpha: nat, lw: seq<int>, r: int)
    requires Tree(p, w, alpha, lw, multiset{r})
    ensures r in multiset{r} && 0 < r < |w| && w[r] >= 0
    ensures Coded(p, alpha, r, HeightOf(w[r]), Total(lw, alpha))
  {
    hide KraftSum, LeafSum, Total, HeightOf, WeightOf, Growth, Pow2;
    assert r in multiset{r};
    forall i: nat | 1 <= i <= alpha ensures Root(p, i) == r { assert Root(p, i) in multiset{r}; }
    AllUnder(p, alpha, r, lw);
  }

  /** The construction: one tree from the given leaf weights. */
  method MakeTree(heap: array<int>, weight: array<int>, parent: array<int>, alphaSize: nat, ghost lw: seq<int>)
    returns (nNodes: nat, ghost r: nat, ghost h: nat)
    requires heap != weight && heap != parent && weight != parent
    requires heap.Length == 260 && weight.Length == 516 && parent.Length == 516 && 1 <= alphaSize <= 258
    requires LeafWeights(weight[..], alphaSize, lw) && Total(lw, alphaSize) < 0x80_0000
    modifies heap, weight, parent
    ensures nNodes < parent.Length && Coded(parent[..nNodes + 1], alphaSize, r, h, Total(lw, alphaSize))
    ensures Promising(parent[..nNodes + 1], alphaSize, lw)
    ensures LeafWeights(weight[..], alphaSize, lw)
  {
    hide Tree, Ordered, Contents, Total, Coded, Promising;
    FirstForest(heap, weight, parent, alphaSize, lw);
    var nHeap := alphaSize;
    nNodes := alphaSize;
    while nHeap > 1
      invariant nHeap >= 1 && Building(heap[..], weight[..], parent[..], nHeap, nNodes, alphaSize, lw)
    {
      MergeTwo(heap, weight, parent, nHeap, nNodes, alphaSize, lw);
      nHeap := nHeap - 1;
      nNodes := nNodes + 1;
    }
    OneContent(heap[..]);
    OneRoot(parent[..nNodes + 1], weight[..], alphaSize, lw, heap[1]);
    r, h := heap[1], HeightOf(weight[heap[1]]);
  }

  lemma OneContent(v: seq<int>)
    requires |v| > 1
    ensures Contents(v, 1) == multiset{v[1]}
  {
    assert v[1..2] == [v[1]];
  }

  /** The depths of the leaves. */
  ghost predicate Measured(p: seq<int>, lens: seq<int>, n: nat)
    requires Forest(p) && n < |p|
  {
    n <= |lens| && forall k :: 0 <= k < n ==> lens[k] == Depth(p, k + 1)
  }

  /** The lengths are read off by following the links upwards. */
  method ReadLengths(len: array<int>, parent: array<int>, nNodes: nat, alphaSize: nat, maxLen: nat)
    returns (tooLong: bool)
    requires len != parent && alphaSize <= len.Length && alphaSize <= nNodes < parent.Length
    requires Forest(parent[..nNodes + 1])
    modifies len
    ensures Measured(parent[..nNodes + 1], len[..alphaSize], alphaSize)
    ensures tooLong <==> exists i :: 0 <= i < alphaSize && len[i] > maxLen
  {
    ghost var p := parent[..nNodes + 1];
    tooLong := false;
    for i := 1 to alphaSize + 1
      invariant parent[..nNodes + 1] == p
      invariant forall k :: 0 <= k < i - 1 ==> len[k] == Depth(p, k + 1)
      invariant tooLong <==> exists k :: 0 <= k < i - 1 && len[k] > maxLen
    {
      var j := Climb(parent, nNodes, i);
      len[i - 1] := j;
      if j > maxLen { tooLong := true; }
    }
  }

  method Climb(parent: array<int>, nNodes: nat, i: nat) returns (j: nat)
    requires 1 <= i <= nNodes < parent.Length && Forest(parent[..nNodes + 1])
    ensures j == Depth(parent[..nNodes + 1], i)
  {
    ghost var p := parent[..nNodes + 1];
    var k: int := i;
    j := 0;
    while parent[k] >= 0
      invariant 1 <= k <= nNodes && j + Depth(p, k) == Depth(p, i)
      decreases nNodes - k
    {
      assert p[k] == parent[k];
      k := parent[k];
      j := j + 1;
    }
    assert p[k] == parent[k];
  }

  lemma KraftSumMore(p: seq<int>, i: nat, r: nat, d: nat)
    requires Forest(p) && 0 < i < |p| <= TOP && Root(p, i) == r && d == Depth(p, i)
    ensures d <= TOP && KraftSum(p, i, r, TOP) == KraftSum(p, i - 1, r, TOP) + Pow2(TOP - d)
  {
    hide Pow2, Depth, Root, Forest;
  }

  ghost function ScaledKraft(lens: seq<int>, i: nat, max: nat): int
    requires i <= |lens| && max <= TOP && forall k :: 0 <= k < i ==> 0 <= lens[k] <= max
  {
    Pow2(TOP - max) * Kraft(lens, i, max)
  }

  lemma ScaledKraftMore(lens: seq<int>, i: nat, max: nat)
    requires 0 < i <= |lens| && max <= TOP && forall k :: 0 <= k < i ==> 0 <= lens[k] <= max
    ensures ScaledKraft(lens, i, max) == ScaledKraft(lens, i - 1, max) + Pow2(TOP - lens[i - 1])
  {
    hide Pow2;
    Pow2Sum(TOP - max, max - lens[i - 1]);
    Spread(Pow2(TOP - max), Kraft(lens, i - 1, max), Pow2(max - lens[i - 1]));
  }

  lemma {:induction false} KraftScaled(p: seq<int>, i: nat, r: nat, lens: seq<int>, max: nat)
    requires Forest(p) && i < |p| < TOP && Measured(p, lens, i) && max <= TOP
    requires forall k: nat :: 1 <= k <= i ==> Root(p, k) == r
    requires forall k :: 0 <= k < i ==> 0 <= lens[k] <= max
    ensures KraftSum(p, i, r, TOP) == ScaledKraft(lens, i, max)
  {
    if i > 0 {
      var d := lens[i - 1];
      KraftSumMore(p, i, r, d);
      assert Measured(p, lens, i - 1);
      hide Pow2, Depth, Root, Forest, KraftSum, Measured, ScaledKraft;
      KraftScaled(p, i - 1, r, lens, max);
      ScaledKraftMore(lens, i, max);
    } else {
      assert Kraft(lens, 0, max) == 0 && KraftSum(p, 0, r, TOP) == 0;
    }
  }

  lemma Spread(a: nat, b: nat, c: nat)
    ensures a * b + a * c == a * (b + c)
  {
  }

  lemma CancelScale(a: nat, b: nat, p: nat)
    requires p >= 1 && p * a == p * b
    ensures a == b
  {
    CancelFactor(a, b, p);
    CancelFactor(b, a, p);
  }

  /** Lengths read off a tree make a complete code. */
  lemma CompleteCode(p: seq<int>, alpha: nat, r: nat, h: nat, total: int, lens: seq<int>, max: nat)
    requires Coded(p, alpha, r, h, total) && 2 <= alpha == |lens| <= MAX_ALPHA_SIZE && max <= 20
    requires Measured(p, lens, alpha) && forall k :: 0 <= k < alpha ==> lens[k] <= max
    ensures Lengths(lens, 1, max) && Kraft(lens, alpha, max) == Pow2(max)
  {
    hide Pow2, Growth, Root, KraftSum, Kraft, Depth;
    assert forall k :: 0 <= k < alpha ==> 0 <= lens[k] <= max;
    KraftScaled(p, alpha, r, lens, max);
    Pow2Sum(TOP - max, max);
    CancelScale(Kraft(lens, alpha, max), Pow2(max), Pow2(TOP - max));
    forall k | 0 <= k < alpha ensures 1 <= lens[k] {
      NotTheRoot(p, alpha, r, k + 1);
    }
  }

  /** With two leaves or more, none is the root. */
  lemma NotTheRoot(p: seq<int>, alpha: nat, r: nat, k: nat)
    requires Forest(p) && 2 <= alpha < |p| < TOP && 1 <= k <= alpha && KraftSum(p, alpha, r, TOP) == Pow2(TOP)
    requires forall i: nat :: 1 <= i <= alpha ==> Root(p, i) == r
    ensures Depth(p, k) >= 1
  {
    hide Pow2, Root, KraftSum, Depth;
    if k == 1 {
      KraftAtLeastTwo(p, alpha, 1, 2, r, TOP);
    } else {
      KraftAtLeastTwo(p, alpha, 1, k, r, TOP);
    }
  }

  // ---------------------------------------------------------------- flattening

  function Halved(x: int): int { 1 + x / 2 }

  /** Flattening halves weights, by more the greater they are, and keeps their order. */
  lemma FlatterBounds(lw: seq<int>, j: nat, k: nat)
    requires j < |lw| && k < |lw| && 0 <= lw[j] <= lw[k]
    ensures lw[j] <= 2 * Flatter(lw)[j] <= lw[j] + 2 && lw[k] <= 2 * Flatter(lw)[k] <= lw[k] + 2
    ensures Flatter(lw)[j] <= Flatter(lw)[k] && Flatter(lw)[k] - Flatter(lw)[j] <= lw[k] - lw[j]
  {
  }

  ghost function Flatter(lw: seq<int>): (lw': seq<int>)
    ensures |lw'| == |lw| && forall k :: 0 <= k < |lw| ==> lw'[k] == Halved(lw[k])
  {
    seq(|lw|, k requires 0 <= k < |lw| => Halved(lw[k]))
  }

  /** The weights after some rounds of flattening. */
  ghost function Rescaled(lw: seq<int>, rounds: nat): (lw': seq<int>)
    ensures |lw'| == |lw|
  {
    if rounds == 0 then lw else Flatter(Rescaled(lw, rounds - 1))
  }

  /** lens is best for these weights, but has a code that is too long. */
  ghost predicate BestTooLong(lw: seq<int>, lens: seq<int>, maxLen: nat) {
    Optimal(lw, lens) && exists i :: 0 <= i < |lens| && lens[i] > maxLen
  }

  /** Some best code was too long after so many rounds. */
  ghost predicate Forced(lw: seq<int>, t: nat, maxLen: nat) {
    exists lens :: BestTooLong(Rescaled(lw, t), lens, maxLen)
  }

  /** In every round before this one a best code was too long. */
  ghost predicate ForcedRounds(lw: seq<int>, rounds: nat, maxLen: nat) {
    forall t: nat :: t < rounds ==> Forced(lw, t, maxLen)
  }

  lemma OneMoreRound(lw: seq<int>, rounds: nat, lens: seq<int>, maxLen: nat)
    requires ForcedRounds(lw, rounds, maxLen) && BestTooLong(Rescaled(lw, rounds), lens, maxLen)
    ensures ForcedRounds(lw, rounds + 1, maxLen)
  {
    hide BestTooLong;
    assert Forced(lw, rounds, maxLen);
  }

  lemma {:induction false} FlatterTotal(lw: seq<int>, lw': seq<int>, i: nat)
    requires i < |lw| && i < |lw'| && forall k :: 1 <= k <= i ==> lw[k] >= 1 && lw'[k] == Halved(lw[k])
    ensures Total(lw', i) <= Total(lw, i)
    ensures Total(lw', i) == Total(lw, i) ==> Total(lw, i) <= 2 * i
  {
    if i > 0 { FlatterTotal(lw, lw', i - 1); }
  }

  /** A code that is too long can only come from weights that flattening lowers. */
  lemma FlatteningHelps(p: seq<int>, alpha: nat, r: nat, h: nat, lw: seq<int>, lw': seq<int>, i: nat)
    requires alpha < |lw| && Coded(p, alpha, r, h, Total(lw, alpha)) && 1 <= i <= alpha <= 258 && Depth(p, i) > 17
    requires alpha < |lw'| && forall k :: 1 <= k <= alpha ==> lw[k] >= 1 && lw'[k] == Halved(lw[k])
    ensures Total(lw', alpha) < Total(lw, alpha)
  {
    hide Growth, KraftSum, Root, Depth, Pow2;
    FlatterTotal(lw, lw', alpha);
    GrowthAt18();
    GrowthMonotone(18, h);
  }

  method FlattenWeights(weight: array<int>, alphaSize: nat, ghost lw: seq<int>) returns (ghost lw': seq<int>)
    requires LeafWeights(weight[..], alphaSize, lw)
    modifies weight
    ensures LeafWeights(weight[..], alphaSize, lw') && lw' == Flatter(lw)
  {
    lw' := Flatter(lw);
    for i := 1 to alphaSize + 1
      invariant forall k :: 1 <= k < i ==> weight[k] == 256 * lw'[k]
      invariant forall k :: i <= k <= alphaSize ==> weight[k] == 256 * lw[k]
    {
      var j := weight[i] / 256;
      j := 1 + j / 2;
      weight[i] := 256 * j;
    }
  }

  /** The weights Huffman's algorithm starts from: no symbol counts for nothing. */
  ghost function Leaves(freq: seq<int>): (lw: seq<int>)
    ensures |lw| == |freq| + 1 && forall i :: 1 <= i <= |freq| ==> lw[i] == if freq[i - 1] == 0 then 1 else freq[i - 1]
  {
    [0] + seq(|freq|, i requires 0 <= i < |freq| => if freq[i] == 0 then 1 else freq[i])
  }

  method FirstWeights(weight: array<int>, freq: array<int>, alphaSize: nat)
    requires weight != freq && weight.Length == 516 && alphaSize <= 258 && alphaSize <= freq.Length
    requires forall i :: 0 <= i < alphaSize ==> freq[i] >= 0
    modifies weight
    ensures LeafWeights(weight[..], alphaSize, Leaves(freq[..alphaSize]))
  {
    for i := 0 to alphaSize
      invariant forall k :: 1 <= k <= i ==> weight[k] == 256 * Leaves(freq[..alphaSize])[k]
    {
      weight[i + 1] := (if freq[i] == 0 then 1 else freq[i]) * 256;
    }
  }

  /** BZ2_hbMakeCodeLengths: for every frequency table a block can have, a complete code with
      no length above maxLen.  It is the cheapest of all codes for the weights it was made from;
      these are flattened only if the cheapest code found was too long.  The bound on the total
      is what keeps a weight in 32 bits. */
  method HbMakeCodeLengths(len: array<int>, freq: array<int>, alphaSize: nat, maxLen: nat) returns (ghost rounds: nat)
    requires len != freq && 2 <= alphaSize <= MAX_ALPHA_SIZE && alphaSize <= len.Length && alphaSize <= freq.Length
    requires 17 <= maxLen <= 20 && forall i :: 0 <= i < alphaSize ==> freq[i] >= 0
    requires Total(Leaves(freq[..alphaSize]), alphaSize) < 0x80_0000
    modifies len
    ensures Lengths(len[..alphaSize], 1, maxLen)
    ensures Kraft(len[..alphaSize], alphaSize, maxLen) == Pow2(maxLen)
    ensures Optimal(Rescaled(Leaves(freq[..alphaSize]), rounds), len[..alphaSize])
    ensures ForcedRounds(Leaves(freq[..alphaSize]), rounds, maxLen)
  {
    hide Total, Coded, LeafWeights, Kraft, Pow2, Depth, Promising, Optimal, ForcedRounds, Measured, BestTooLong;
    var heap, weight, parent := new int[260], new int[516], new int[516];
    FirstWeights(weight, freq, alphaSize);
    ghost var lw := Leaves(freq[..alphaSize]);
    ghost var leaves := lw;
    rounds := 0;
    assert ForcedRounds(leaves, 0, maxLen) by { NotForced(leaves, maxLen); }
    while true
      invariant LeafWeights(weight[..], alphaSize, lw) && |lw| == alphaSize + 1 && lw == Rescaled(leaves, rounds)
      invariant ForcedRounds(leaves, rounds, maxLen)
      invariant Total(lw, alphaSize) < 0x80_0000 && freq[..] == old(freq[..])
      decreases Total(lw, alphaSize)
    {
      var nNodes;
      ghost var r, h;
      nNodes, r, h := MakeTree(heap, weight, parent, alphaSize, lw);
      ghost var p := parent[..nNodes + 1];
      CodedForest(p, alphaSize, r, h, Total(lw, alphaSize));
      var tooLong := ReadLengths(len, parent, nNodes, alphaSize, maxLen);
      LeafWeightsPositive(weight[..], alphaSize, lw);
      MeasuredBest(p, alphaSize, lw, len[..alphaSize]);
      if !tooLong {
        CompleteCode(p, alphaSize, r, h, Total(lw, alphaSize), len[..alphaSize], maxLen);
        break;
      }
      ghost var lw0 := lw;
      ghost var i :| 0 <= i < alphaSize && len[i] > maxLen;
      assert len[..alphaSize][i] == len[i];
      FoundTooLong(lw, len[..alphaSize], i, maxLen);
      OneMoreRound(leaves, rounds, len[..alphaSize], maxLen);
      lw := FlattenWeights(weight, alphaSize, lw);
      rounds := rounds + 1;
      LeafWeightsPositive(weight[..], alphaSize, lw);
      DeepLeaf(p, alphaSize, len[..alphaSize], i, maxLen);
      FlatteningHelps(p, alphaSize, r, h, lw0, lw, i + 1);
    }
  }

  lemma NotForced(lw: seq<int>, maxLen: nat)
    ensures ForcedRounds(lw, 0, maxLen)
  {
  }

  lemma MeasuredBest(p: seq<int>, alpha: nat, lw: seq<int>, lens: seq<int>)
    requires Promising(p, alpha, lw) && Forest(p) && alpha < |p| && |lw| == alpha + 1 && |lens| == alpha
    requires Measured(p, lens, alpha) && forall k :: 1 <= k <= alpha ==> lw[k] >= 1
    ensures Optimal(lw, lens)
  {
    hide Promising, Optimal, Depth;
    PromiseKept(p, alpha, lw, lens);
  }

  lemma FoundTooLong(lw: seq<int>, lens: seq<int>, i: nat, maxLen: nat)
    requires Optimal(lw, lens) && i < |lens| && lens[i] > maxLen
    ensures BestTooLong(lw, lens, maxLen)
  {
    hide Optimal;
  }

  lemma DeepLeaf(p: seq<int>, alpha: nat, lens: seq<int>, i: nat, maxLen: nat)
    requires Forest(p) && alpha < |p| && i < alpha <= |lens| && Measured(p, lens, alpha) && lens[i] > maxLen
    ensures Depth(p, i + 1) > maxLen
  {
    hide Depth;
  }

  lemma LeafWeightsPositive(w: seq<int>, alpha: nat, lw: seq<int>)
    requires LeafWeights(w, alpha, lw)
    ensures alpha < |lw| && forall k :: 1 <= k <= alpha ==> lw[k] >= 1
    ensures Total(lw, alpha) >= 0
  {
    hide LeafWeights;
    TotalPositive(w, alpha, lw, alpha);
  }

  lemma {:induction false} TotalPositive(w: seq<int>, alpha: nat, lw: seq<int>, i: nat)
    requires LeafWeights(w, alpha, lw) && i <= alpha
    ensures alpha < |lw| && Total(lw, i) >= 0 && forall k :: 1 <= k <= alpha ==> lw[k] >= 1
  {
    if i > 0 { TotalPositive(w, alpha, lw, i - 1); }
  }

  lemma CodedForest(p: seq<int>, alpha: nat, r: nat, h: nat, total: int)
    requires Coded(p, alpha, r, h, total)
    ensures Forest(p) && alpha < |p|
  {
  }
}
