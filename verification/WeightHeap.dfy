/** The heap of BZ2_hbMakeCodeLengths (huffman.c): the macros UPHEAP and DOWNHEAP on a heap of
    node numbers that starts at 1, with a weightless sentinel at 0. */
module WeightHeap {

  ghost predicate Nodes(v: seq<int>, n: nat, w: seq<int>) {
    && n < |v| && |w| > 0 && v[0] == 0 && w[0] == 0
    && (forall k :: 1 <= k <= n ==> 0 < v[k] < |w| && w[v[k]] >= 0)
  }

  ghost predicate Ordered(v: seq<int>, n: nat, w: seq<int>) {
    Nodes(v, n, w) && forall k :: 2 <= k <= n ==> w[v[k / 2]] <= w[v[k]]
  }

  ghost function Contents(v: seq<int>, n: nat): multiset<int>
    requires n < |v|
  {
    multiset(v[1..n + 1])
  }

  ghost function Swapped(v: seq<int>, i: nat, j: nat): (u: seq<int>)
    requires i < |v| && j < |v|
    ensures |u| == |v| && forall k :: 0 <= k < |u| ==> u[k] == if k == i then v[j] else if k == j then v[i] else v[k]
  {
    v[i := v[j]][j := v[i]]
  }

  lemma SwapContents(v: seq<int>, n: nat, i: nat, j: nat)
    requires 1 <= i <= n < |v| && 1 <= j <= n
    ensures Contents(Swapped(v, i, j), n) == Contents(v, n)
  {
    var s := v[1..n + 1];
    assert Swapped(v, i, j)[1..n + 1] == s[i - 1 := s[j - 1]][j - 1 := s[i - 1]];
  }

  // ---------------------------------------------------------------- upwards

  /** Ordered, but for the node at zz, which may be lighter than those above it. */
  ghost predicate Rising(v: seq<int>, n: nat, w: seq<int>, zz: nat) {
    && Nodes(v, n, w) && 1 <= zz <= n
    && (forall k :: 2 <= k <= n && k != zz ==> w[v[k / 2]] <= w[v[k]])
    && (forall k :: 2 <= k <= n && k / 2 == zz && zz >= 2 ==> w[v[zz / 2]] <= w[v[k]])
  }

  lemma RiseStep(v: seq<int>, n: nat, w: seq<int>, zz: nat)
    requires Rising(v, n, w, zz) && w[v[zz]] < w[v[zz / 2]]
    ensures zz >= 2 && Rising(Swapped(v, zz, zz / 2), n, w, zz / 2)
    ensures Contents(Swapped(v, zz, zz / 2), n) == Contents(v, n)
  {
    SwapContents(v, n, zz, zz / 2);
    hide Contents;
    var u := Swapped(v, zz, zz / 2);
    forall k | 2 <= k <= n && k != zz / 2 ensures w[u[k / 2]] <= w[u[k]] {
      if k == zz {
      } else if k / 2 == zz {
      } else if k / 2 == zz / 2 {
        assert w[v[k / 2]] <= w[v[k]];
      } else {
        assert w[v[k / 2]] <= w[v[k]];
      }
    }
    forall k | 2 <= k <= n && k / 2 == zz / 2 && zz / 2 >= 2 ensures w[u[zz / 2 / 2]] <= w[u[k]] {
      assert w[v[zz / 2 / 2]] <= w[v[zz / 2]];
    }
  }

  /** UPHEAP(z): the new last node rises to its place. */
  method UpHeap(heap: array<int>, weight: array<int>, z: nat)
    requires heap != weight && Rising(heap[..], z, weight[..], z)
    modifies heap
    ensures Ordered(heap[..], z, weight[..])
    ensures Contents(heap[..], z) == old(Contents(heap[..], z))
  {
    hide Contents;
    var zz: nat := z;
    var tmp := heap[zz];
    ghost var v, w := heap[..], weight[..];
    while weight[tmp] < weight[heap[zz / 2]]
      invariant weight[..] == w && Rising(v, z, w, zz) && tmp == v[zz] && |v| == heap.Length
      invariant forall k :: 0 <= k < |v| && k != zz ==> heap[k] == v[k]
      invariant heap[zz / 2] == v[zz / 2]
      invariant Contents(v, z) == old(Contents(heap[..], z))
      decreases zz
    {
      RiseStep(v, z, w, zz);
      v := Swapped(v, zz, zz / 2);
      heap[zz] := heap[zz / 2];
      zz := zz / 2;
    }
    heap[zz] := tmp;
    assert heap[..] == v;
  }

  // ---------------------------------------------------------------- downwards

  /** Ordered, but for the node at zz, which may be heavier than those below it. */
  ghost predicate Sinking(v: seq<int>, n: nat, w: seq<int>, zz: nat) {
    && Nodes(v, n, w) && 1 <= zz
    && (forall k :: 2 <= k <= n && k / 2 != zz ==> w[v[k / 2]] <= w[v[k]])
    && (forall k :: 2 <= k <= n && k / 2 == zz && zz >= 2 ==> w[v[zz / 2]] <= w[v[k]])
  }

  ghost predicate LighterChild(v: seq<int>, n: nat, w: seq<int>, zz: nat, yy: nat)
    requires Nodes(v, n, w)
  {
    2 <= yy <= n && yy / 2 == zz && forall k :: 2 <= k <= n && k / 2 == zz ==> w[v[yy]] <= w[v[k]]
  }

  lemma SinkStep(v: seq<int>, n: nat, w: seq<int>, zz: nat, yy: nat)
    requires Sinking(v, n, w, zz) && LighterChild(v, n, w, zz, yy) && w[v[yy]] <= w[v[zz]]
    ensures Sinking(Swapped(v, zz, yy), n, w, yy)
    ensures Contents(Swapped(v, zz, yy), n) == Contents(v, n)
  {
    SwapContents(v, n, zz, yy);
    hide Contents;
    var u := Swapped(v, zz, yy);
    forall k | 2 <= k <= n && k / 2 != yy ensures w[u[k / 2]] <= w[u[k]] {
      if k == zz {
      } else if k / 2 == zz {
      } else {
        assert w[v[k / 2]] <= w[v[k]];
      }
    }
    forall k | 2 <= k <= n && k / 2 == yy ensures w[u[yy / 2]] <= w[u[k]] {
      assert w[v[k / 2]] <= w[v[k]];
    }
  }

  method FindLighter(heap: array<int>, weight: array<int>, nHeap: nat, zz: nat, ghost v: seq<int>) returns (yy: nat)
    requires heap != weight && Nodes(v, nHeap, weight[..]) && 1 <= zz && 2 * zz <= nHeap && |v| == heap.Length
    requires forall k :: 0 <= k < |v| && k != zz ==> heap[k] == v[k]
    ensures LighterChild(v, nHeap, weight[..], zz, yy)
  {
    yy := 2 * zz;
    assert forall k :: 2 <= k <= nHeap && k / 2 == zz ==> k == 2 * zz || k == 2 * zz + 1;
    if yy < nHeap {
      if weight[heap[yy + 1]] < weight[heap[yy]] { yy := yy + 1; }
    }
  }

  /** DOWNHEAP(1). */
  method DownHeap(heap: array<int>, weight: array<int>, nHeap: nat)
    requires heap != weight && heap.Length >= 2 && Sinking(heap[..], nHeap, weight[..], 1)
    requires nHeap == 0 ==> 0 <= heap[1] < weight.Length
    modifies heap
    ensures Ordered(heap[..], nHeap, weight[..])
    ensures Contents(heap[..], nHeap) == old(Contents(heap[..], nHeap))
    ensures forall k :: nHeap < k < heap.Length ==> heap[k] == old(heap[k])
  {
    hide Contents, LighterChild;
    var zz := 1;
    var tmp := heap[zz];
    ghost var v, w := heap[..], weight[..];
    while true
      invariant weight[..] == w && Sinking(v, nHeap, w, zz) && 1 <= zz < |v| == heap.Length && tmp == v[zz]
      invariant zz == 1 || zz <= nHeap
      invariant forall k :: 0 <= k < |v| && k != zz ==> heap[k] == v[k]
      invariant forall k :: nHeap < k < |v| ==> v[k] == old(heap[k])
      invariant Contents(v, nHeap) == old(Contents(heap[..], nHeap))
      decreases nHeap - zz
    {
      if 2 * zz > nHeap { break; }
      var yy := FindLighter(heap, weight, nHeap, zz, v);
      LighterPlace(v, nHeap, w, zz, yy);
      if weight[tmp] < weight[heap[yy]] {
        SinkEnds(v, nHeap, w, zz, yy);
        break;
      }
      SinkStep(v, nHeap, w, zz, yy);
      v := Swapped(v, zz, yy);
      heap[zz] := heap[yy];
      zz := yy;
    }
    heap[zz] := tmp;
    assert heap[..] == v;
  }

  lemma LighterPlace(v: seq<int>, n: nat, w: seq<int>, zz: nat, yy: nat)
    requires Nodes(v, n, w) && LighterChild(v, n, w, zz, yy)
    ensures 2 <= yy <= n && zz < yy
  {
  }

  lemma SinkEnds(v: seq<int>, n: nat, w: seq<int>, zz: nat, yy: nat)
    requires Sinking(v, n, w, zz) && LighterChild(v, n, w, zz, yy) && w[v[zz]] < w[v[yy]]
    ensures Ordered(v, n, w)
  {
  }

  lemma {:induction false} RootLightest(v: seq<int>, n: nat, w: seq<int>, k: nat)
    requires Ordered(v, n, w) && 1 <= k <= n
    ensures w[v[1]] <= w[v[k]]
  {
    if k > 1 { RootLightest(v, n, w, k / 2); }
  }

  /** The lightest node is taken from the heap. */
  method Pop(heap: array<int>, weight: array<int>, nHeap: nat) returns (n1: int)
    requires heap != weight && nHeap >= 1 && Ordered(heap[..], nHeap, weight[..])
    modifies heap
    ensures n1 == old(heap[1]) && 0 < n1 < weight.Length
    ensures Ordered(heap[..], nHeap - 1, weight[..])
    ensures old(Contents(heap[..], nHeap)) == Contents(heap[..], nHeap - 1) + multiset{n1}
    ensures forall x :: x in old(Contents(heap[..], nHeap)) ==> 0 < x < weight.Length && weight[n1] <= weight[x]
  {
    hide Contents, Sinking, Ordered;
    ghost var v := heap[..];
    Lightest(v, nHeap, weight[..]);
    n1 := heap[1];
    heap[1] := heap[nHeap];
    assert heap[..] == v[1 := v[nHeap]];
    LastMoved(v, nHeap, weight[..]);
    LastContents(v, nHeap);
    DownHeap(heap, weight, nHeap - 1);
  }

  lemma Lightest(v: seq<int>, n: nat, w: seq<int>)
    requires Ordered(v, n, w) && n >= 1
    ensures n < |v| && 0 < v[1] < |w| && 0 < v[n] < |w|
    ensures forall x :: x in Contents(v, n) ==> 0 < x < |w| && w[v[1]] <= w[x]
  {
    forall x | x in Contents(v, n) ensures 0 < x < |w| && w[v[1]] <= w[x] {
      assert x in v[1..n + 1];
      var k :| 0 <= k < n && v[1..n + 1][k] == x;
      RootLightest(v, n, w, k + 1);
    }
  }

  lemma LastMoved(v: seq<int>, n: nat, w: seq<int>)
    requires Ordered(v, n, w) && n >= 1
    ensures Sinking(v[1 := v[n]], n - 1, w, 1)
  {
  }

  lemma LastContents(v: seq<int>, n: nat)
    requires 1 <= n < |v|
    ensures Contents(v, n) == Contents(v[1 := v[n]], n - 1) + multiset{v[1]}
  {
    var u := v[1 := v[n]];
    if n == 1 {
      assert v[1..2] == [v[1]] && u[1..1] == [];
    } else {
      assert v[1..n + 1] == [v[1]] + v[2..n] + [v[n]];
      assert u[1..n] == [v[n]] + v[2..n];
    }
  }

  /** A node is added. */
  method Push(heap: array<int>, weight: array<int>, nHeap: nat, x: int)
    requires heap != weight && Ordered(heap[..], nHeap, weight[..]) && 0 < x < weight.Length && weight[x] >= 0 && nHeap + 1 < heap.Length
    modifies heap
    ensures Ordered(heap[..], nHeap + 1, weight[..])
    ensures Contents(heap[..], nHeap + 1) == old(Contents(heap[..], nHeap)) + multiset{x}
  {
    hide Contents, Ordered, Rising;
    ghost var v := heap[..];
    OrderedFits(v, nHeap, weight[..]);
    heap[nHeap + 1] := x;
    assert heap[..] == v[nHeap + 1 := x];
    PushRises(v, nHeap, weight[..], x);
    UpHeap(heap, weight, nHeap + 1);
  }

  lemma OrderedFits(v: seq<int>, n: nat, w: seq<int>)
    requires Ordered(v, n, w)
    ensures n < |v|
  {
  }

  lemma PushRises(v: seq<int>, n: nat, w: seq<int>, x: int)
    requires Ordered(v, n, w) && n + 1 < |v| && 0 < x < |w| && w[x] >= 0
    ensures Rising(v[n + 1 := x], n + 1, w, n + 1)
    ensures Contents(v[n + 1 := x], n + 1) == Contents(v, n) + multiset{x}
  {
    assert v[n + 1 := x][1..n + 2] == v[1..n + 1] + [x];
  }

  /** Weights of nodes outside the heap do not matter to it. */
  lemma OrderedKeeps(v: seq<int>, n: nat, w: seq<int>, m: int, c: int)
    requires Ordered(v, n, w) && 0 < m < |w| && m !in Contents(v, n)
    ensures Ordered(v, n, w[m := c])
  {
    forall k | 1 <= k <= n ensures v[k] != m { assert v[1..n + 1][k - 1] == v[k]; }
  }
}
