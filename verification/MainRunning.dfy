/** The running order of mainSort (blocksort.c): the big buckets, the least full first. */
module MainRunning {
  import opened Rotations
  import opened MainRadix
  import F = FallbackQSort

  /** BIGFREQ. */
  function BigFreq(ftab: seq<int>, c: int): int
    requires |ftab| == SMALL_BUCKETS + 1 && 0 <= c < 256
  {
    ftab[(c + 1) * 256] - ftab[c * 256]
  }

  ghost predicate Bytes(p: seq<int>) { |p| == 256 && forall i :: 0 <= i < 256 ==> 0 <= p[i] < 256 }

  ghost predicate Rising(p: seq<int>, ft: seq<int>, lo: int, hi: int)
    requires Bytes(p) && |ft| == SMALL_BUCKETS + 1
  {
    forall i, j :: 0 <= lo <= i < j < hi <= 256 ==> BigFreq(ft, p[i]) <= BigFreq(ft, p[j])
  }

  /** vv is being inserted, the hole being at j. */
  ghost predicate Sifting(p: seq<int>, ft: seq<int>, i: int, j: int, vv: int)
    requires Bytes(p) && |ft| == SMALL_BUCKETS + 1 && 0 <= vv < 256
  {
    && 0 <= j <= i < 256
    && (forall k, l :: 0 <= k < l <= i && k != j && l != j ==> BigFreq(ft, p[k]) <= BigFreq(ft, p[l]))
    && (forall k :: j < k <= i ==> BigFreq(ft, vv) <= BigFreq(ft, p[k]))
  }

  lemma SiftStep(p: seq<int>, ft: seq<int>, i: int, j: int, vv: int)
    requires Bytes(p) && |ft| == SMALL_BUCKETS + 1 && 0 <= vv < 256
    requires Sifting(p, ft, i, j, vv) && 0 < j && BigFreq(ft, p[j - 1]) > BigFreq(ft, vv)
    ensures Bytes(p[j := p[j - 1]]) && Sifting(p[j := p[j - 1]], ft, i, j - 1, vv)
  {
    hide BigFreq;
    var q := p[j := p[j - 1]];
    forall k, l | 0 <= k < l <= i && k != j - 1 && l != j - 1 ensures BigFreq(ft, q[k]) <= BigFreq(ft, q[l]) {
      var k', l' := if k == j then j - 1 else k, if l == j then j - 1 else l;
      assert BigFreq(ft, p[k']) <= BigFreq(ft, p[l']);
    }
  }

  lemma SiftEnd(p: seq<int>, ft: seq<int>, i: int, j: int, vv: int)
    requires Bytes(p) && |ft| == SMALL_BUCKETS + 1 && 0 <= vv < 256
    requires Sifting(p, ft, i, j, vv) && (j == 0 || BigFreq(ft, p[j - 1]) <= BigFreq(ft, vv))
    ensures Bytes(p[j := vv]) && Rising(p[j := vv], ft, 0, i + 1)
  {
    hide BigFreq;
    var q := p[j := vv];
    forall k, l | 0 <= k < l < i + 1 ensures BigFreq(ft, q[k]) <= BigFreq(ft, q[l]) {
      if l == j && k < j - 1 { assert BigFreq(ft, p[k]) <= BigFreq(ft, p[j - 1]); }
    }
  }

  lemma BytesRearranged(p: seq<int>, q: seq<int>)
    requires Bytes(p) && F.Rearranged(p, q, 0, 255)
    ensures Bytes(q)
  {
    forall i | 0 <= i < 256 ensures 0 <= q[i] < 256 { var j := F.CameFrom(p, q, 0, 255, i); }
  }

  /** One insertion with the increment h. */
  method Insert(order: array<int>, ftab: array<int>, h: nat, i: nat)
    requires order != ftab && ftab.Length == SMALL_BUCKETS + 1 && Bytes(order[..]) && 1 <= h <= i < 256
    requires h == 1 ==> Rising(order[..], ftab[..], 0, i)
    modifies order
    ensures F.Rearranged(old(order[..]), order[..], 0, 255) && Bytes(order[..])
    ensures h == 1 ==> Rising(order[..], ftab[..], 0, i + 1)
  {
    hide F.Rearranged, BigFreq;
    ghost var p0, ft := order[..], ftab[..];
    var vv := order[i];
    var j := i;
    assert p0[i := vv] == p0;
    F.RearrangedSelf(p0, 0, 255);
    while BigFreq(ftab[..], order[j - h]) > BigFreq(ftab[..], vv)
      invariant h <= j <= i && ftab[..] == ft && 0 <= vv < 256 && Bytes(order[..])
      invariant F.HoleState(p0, order[..], 0, 255, j, vv)
      invariant h == 1 ==> Sifting(order[..], ft, i, j, vv)
      decreases j
    {
      ghost var p := order[..];
      F.MoveHole(p0, p, 0, 255, j, j - h, vv);
      if h == 1 { SiftStep(p, ft, i, j, vv); }
      order[j] := order[j - h];
      assert order[..] == p[j := p[j - h]];
      j := j - h;
      if j <= h - 1 { break; }
    }
    ghost var p := order[..];
    if h == 1 { SiftEnd(p, ft, i, j, vv); }
    order[j] := vv;
    assert order[..] == p[j := vv];
    BytesRearranged(p0, order[..]);
  }

  /** All big buckets, the least full first. */
  method RunningOrder(ftab: array<int>) returns (order: array<int>)
    requires ftab.Length == SMALL_BUCKETS + 1
    ensures fresh(order) && order.Length == 256 && IsPermutation(order[..], 256) && Bytes(order[..]) && Rising(order[..], ftab[..], 0, 256)
  {
    hide F.Rearranged, BigFreq, Rising;
    order := new int[256];
    for i := 0 to 256
      invariant forall k :: 0 <= k < i ==> order[k] == k
    {
      order[i] := i;
    }
    ghost var p0 := order[..];
    F.RearrangedSelf(p0, 0, 255);
    var h := 1;
    while true
      invariant h == 1 || h == 4 || h == 13 || h == 40 || h == 121
      decreases 364 - h
    {
      h := 3 * h + 1;
      if h > 256 { break; }
    }
    while true
      invariant h == 364 || h == 121 || h == 40 || h == 13 || h == 4
      invariant F.Rearranged(p0, order[..], 0, 255) && Bytes(order[..])
      decreases h
    {
      h := h / 3;
      Pass(order, ftab, h, p0);
      if h == 1 { break; }
    }
    OrderPermutes(p0, order[..]);
  }

  method Pass(order: array<int>, ftab: array<int>, h: nat, ghost p0: seq<int>)
    requires order != ftab && ftab.Length == SMALL_BUCKETS + 1 && Bytes(order[..]) && 1 <= h < 256
    requires F.Rearranged(p0, order[..], 0, 255)
    modifies order
    ensures F.Rearranged(p0, order[..], 0, 255) && Bytes(order[..])
    ensures h == 1 ==> Rising(order[..], ftab[..], 0, 256)
  {
    hide F.Rearranged, BigFreq, Rising;
    if h == 1 { RisingOne(order[..], ftab[..]); }
    for i := h to 256
      invariant F.Rearranged(p0, order[..], 0, 255) && Bytes(order[..]) && ftab[..] == old(ftab[..])
      invariant h == 1 ==> Rising(order[..], ftab[..], 0, i)
    {
      ghost var p := order[..];
      Insert(order, ftab, h, i);
      F.RearrangedTransitive(p0, p, order[..], 0, 255);
    }
  }

  lemma RisingOne(p: seq<int>, ft: seq<int>)
    requires Bytes(p) && |ft| == SMALL_BUCKETS + 1
    ensures Rising(p, ft, 0, 1)
  {
  }

  lemma OrderPermutes(p0: seq<int>, p: seq<int>)
    requires |p0| == 256 && (forall i :: 0 <= i < 256 ==> p0[i] == i) && F.Rearranged(p0, p, 0, 255)
    ensures IsPermutation(p, 256)
  {
    forall i | 0 <= i < 256 ensures 0 <= p[i] < 256 { var j := F.CameFrom(p0, p, 0, 255, i); }
    forall i, j | 0 <= i < j < 256 ensures p[i] != p[j] {
      if p[i] == p[j] {
        PermutationCounts(p0, 256, p[i]);
        Twice(p, i, j);
      }
    }
  }
}
