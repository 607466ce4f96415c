/** The beginning of mainSort (blocksort.c): rotations sorted by their first two bytes, and the
    order in which the big buckets are to be completed. */
module MainRadix {
  import opened Rotations
  import opened Counting
  import opened InverseTransform
  import opened MainOrder

  const SMALL_BUCKETS := 65536

  ghost predicate IsBlock(b: seq<int>) {
    OVERSHOOT < |b| <= 900000 && IsColumn(b)
  }

  /** The first two bytes of a rotation. */
  ghost function Key(b: seq<int>, s: nat): int
    requires s < |b|
  {
    256 * b[s] + b[Succ(|b|, s)]
  }

  ghost function Keys(b: seq<int>): (k: seq<int>)
    ensures |k| == |b| && forall s :: 0 <= s < |b| ==> k[s] == Key(b, s)
  {
    seq(|b|, s requires 0 <= s < |b| => Key(b, s))
  }

  lemma KeyRange(b: seq<int>, s: nat)
    requires IsBlock(b) && s < |b|
    ensures 0 <= Keys(b)[s] < SMALL_BUCKETS && Keys(b)[s] / 256 == b[s] && Keys(b)[s] % 256 == b[Succ(|b|, s)]
  {
  }

  // ---------------------------------------------------------------- counting pairs

  /** Pairs from place i on have been counted. */
  ghost predicate PairsFrom(ft: seq<int>, k: seq<int>, i: nat)
    requires i <= |k|
  {
    |ft| == SMALL_BUCKETS + 1 && forall c :: 0 <= c <= SMALL_BUCKETS ==> ft[c] == CountEq(k, |k|, c) - CountEq(k, i, c)
  }

  lemma PairsNone(ft: seq<int>, k: seq<int>)
    requires |ft| == SMALL_BUCKETS + 1 && forall c :: 0 <= c <= SMALL_BUCKETS ==> ft[c] == 0
    ensures PairsFrom(ft, k, |k|)
  {
  }

  lemma PairCounted(ft: seq<int>, k: seq<int>, i: nat)
    requires 0 < i <= |k| && PairsFrom(ft, k, i) && 0 <= k[i - 1] < SMALL_BUCKETS
    ensures PairsFrom(ft[k[i - 1] := ft[k[i - 1]] + 1], k, i - 1)
  {
    var c0 := k[i - 1];
    var f := ft[c0 := ft[c0] + 1];
    forall c | 0 <= c <= SMALL_BUCKETS ensures f[c] == CountEq(k, |k|, c) - CountEq(k, i - 1, c) {
      assert CountEq(k, i, c) == CountEq(k, i - 1, c) + if c0 == c then 1 else 0;
    }
  }

  /** The pair at i follows from the one at the place after it. */
  method CountPair(block: array<int>, quadrant: array<int>, ftab: array<int>, nblock: nat, i: nat, j: nat, ghost b: seq<int>)
      returns (j': nat)
    requires IsBlock(b) && nblock == |b| <= block.Length && block[..nblock] == b && nblock <= quadrant.Length && i < nblock
    requires block != quadrant && block != ftab && quadrant != ftab
    requires j / 256 == b[Succ(nblock, i)] && PairsFrom(ftab[..], Keys(b), i + 1)
    modifies quadrant, ftab
    ensures j' == Keys(b)[i] && PairsFrom(ftab[..], Keys(b), i)
    ensures quadrant[..] == old(quadrant[..])[i := 0]
  {
    hide CountEq;
    ghost var ft, q := ftab[..], quadrant[..];
    KeyRange(b, i);
    assert block[i] == b[i];
    quadrant[i] := 0;
    j' := j / 256 + 256 * block[i];
    PairCounted(ft, Keys(b), i + 1);
    ftab[j'] := ftab[j'] + 1;
    assert ftab[..] == ft[j' := ft[j'] + 1] && quadrant[..] == q[i := 0];
  }

  /** The pairs are counted four at a time, and the quadrants cleared. */
  method CountPairs(block: array<int>, quadrant: array<int>, ftab: array<int>, nblock: nat, ghost b: seq<int>)
    requires IsBlock(b) && nblock == |b| <= block.Length && block[..nblock] == b && nblock <= quadrant.Length
    requires block != quadrant && block != ftab && quadrant != ftab && ftab.Length == SMALL_BUCKETS + 1
    modifies quadrant, ftab
    ensures PairsFrom(ftab[..], Keys(b), 0) && forall k :: 0 <= k < nblock ==> quadrant[k] == 0
  {
    hide PairsFrom, IsBlock;
    BlockSize(b);
    var i: int := SMALL_BUCKETS;
    while i >= 0
      invariant -1 <= i <= SMALL_BUCKETS && forall c :: i < c <= SMALL_BUCKETS ==> ftab[c] == 0
    {
      ftab[i] := 0;
      i := i - 1;
    }
    PairsNone(ftab[..], Keys(b));
    var j: nat := block[0] * 256;
    i := nblock - 1;
    assert block[0] == b[0];
    while i >= 3
      invariant -1 <= i < nblock && PairsFrom(ftab[..], Keys(b), i + 1) && block[..nblock] == b
      invariant i >= 0 ==> j / 256 == b[Succ(nblock, i)]
      invariant forall k :: i < k < nblock ==> quadrant[k] == 0
    {
      j := CountPair(block, quadrant, ftab, nblock, i, j, b);
      KeyRange(b, i);
      j := CountPair(block, quadrant, ftab, nblock, i - 1, j, b);
      KeyRange(b, i - 1);
      j := CountPair(block, quadrant, ftab, nblock, i - 2, j, b);
      KeyRange(b, i - 2);
      j := CountPair(block, quadrant, ftab, nblock, i - 3, j, b);
      KeyRange(b, i - 3);
      i := i - 4;
    }
    while i >= 0
      invariant -1 <= i < nblock && PairsFrom(ftab[..], Keys(b), i + 1) && block[..nblock] == b
      invariant i >= 0 ==> j / 256 == b[Succ(nblock, i)]
      invariant forall k :: i < k < nblock ==> quadrant[k] == 0
    {
      j := CountPair(block, quadrant, ftab, nblock, i, j, b);
      KeyRange(b, i);
      i := i - 1;
    }
  }

  lemma BlockSize(b: seq<int>)
    requires IsBlock(b)
    ensures OVERSHOOT < |b| <= 900000 && forall i :: 0 <= i < |b| ==> 0 <= b[i] < 256
  {
  }

  // ---------------------------------------------------------------- placing

  /** Pairs below place i are still to be placed: their buckets are filled from above. */
  ghost predicate Cursors(ft: seq<int>, k: seq<int>, i: nat)
    requires i <= |k|
  {
    |ft| == SMALL_BUCKETS + 1 && forall c :: 0 <= c <= SMALL_BUCKETS ==> ft[c] == CountLt(k, |k|, c) + CountEq(k, i, c)
  }

  lemma {:induction false} BelowAll(k: seq<int>, i: nat)
    requires i <= |k| && forall s :: 0 <= s < |k| ==> k[s] >= 0
    ensures CountLt(k, i, 0) == 0
  {
    if i > 0 { BelowAll(k, i - 1); }
  }

  /** Running sums. */
  method SumPairs(ftab: array<int>, ghost k: seq<int>)
    requires ftab.Length == SMALL_BUCKETS + 1 && PairsFrom(ftab[..], k, 0) && forall s :: 0 <= s < |k| ==> k[s] >= 0
    modifies ftab
    ensures Cursors(ftab[..], k, |k|)
  {
    hide CountEq, CountLt;
    ghost var ft := ftab[..];
    BelowAll(k, |k|);
    CountsStep(k, |k|, 0);
    NoneYet(k);
    for i := 1 to SMALL_BUCKETS + 1
      invariant forall c :: 0 <= c < i ==> ftab[c] == CountLt(k, |k|, c) + CountEq(k, |k|, c)
      invariant forall c :: i <= c <= SMALL_BUCKETS ==> ftab[c] == ft[c]
    {
      CountsStep(k, |k|, i - 1);
      ftab[i] := ftab[i] + ftab[i - 1];
    }
  }

  lemma NoneYet(k: seq<int>)
    ensures forall c :: CountEq(k, 0, c) == 0
  {
  }

  lemma CursorStep(ft: seq<int>, k: seq<int>, i: nat)
    requires 0 < i <= |k| && Cursors(ft, k, i) && 0 <= k[i - 1] < SMALL_BUCKETS
    ensures ft[k[i - 1]] - 1 == Rank(k, i - 1) < |k| && Cursors(ft[k[i - 1] := ft[k[i - 1]] - 1], k, i - 1)
  {
    var c0 := k[i - 1];
    var f := ft[c0 := ft[c0] - 1];
    RankBelowNextSymbol(k, i - 1);
    forall c | 0 <= c <= SMALL_BUCKETS ensures f[c] == CountLt(k, |k|, c) + CountEq(k, i - 1, c) {
      assert CountEq(k, i, c) == CountEq(k, i - 1, c) + if c0 == c then 1 else 0;
    }
  }

  ghost predicate PlacedFrom(p: seq<int>, k: seq<int>, i: nat) {
    |p| == |k| && forall s :: i <= s < |k| ==> Rank(k, s) < |k| && p[Rank(k, s)] == s
  }

  lemma PlaceStep(p: seq<int>, k: seq<int>, i: nat)
    requires 0 < i <= |k| && PlacedFrom(p, k, i) && Rank(k, i - 1) < |k|
    ensures PlacedFrom(p[Rank(k, i - 1) := i - 1], k, i - 1)
  {
    hide Rank;
    forall s | i - 1 <= s < |k| ensures Rank(k, s) < |k| && p[Rank(k, i - 1) := i - 1][Rank(k, s)] == s {
      RankOrder(k, s, i - 1);
      RankOrder(k, i - 1, s);
    }
  }

  method PlacePair(ptr: array<int>, block: array<int>, ftab: array<int>, nblock: nat, i: nat, s: nat, ghost b: seq<int>)
      returns (s': nat)
    requires IsBlock(b) && nblock == |b| <= block.Length && block[..nblock] == b && ptr.Length == nblock && i < nblock
    requires ptr != block && ptr != ftab && block != ftab
    requires s / 256 == b[Succ(nblock, i)] && Cursors(ftab[..], Keys(b), i + 1) && PlacedFrom(ptr[..], Keys(b), i + 1)
    modifies ptr, ftab
    ensures s' == Keys(b)[i] && Cursors(ftab[..], Keys(b), i) && PlacedFrom(ptr[..], Keys(b), i)
  {
    hide CountEq, CountLt, Rank, PlacedFrom;
    ghost var ft, p := ftab[..], ptr[..];
    KeyRange(b, i);
    assert block[i] == b[i];
    s' := s / 256 + 256 * block[i];
    CursorStep(ft, Keys(b), i + 1);
    PlaceStep(p, Keys(b), i + 1);
    var j := ftab[s'] - 1;
    ftab[s'] := j;
    ptr[j] := i;
    assert ftab[..] == ft[s' := ft[s'] - 1] && ptr[..] == p[j := i];
  }

  method PlacePairs(ptr: array<int>, block: array<int>, ftab: array<int>, nblock: nat, ghost b: seq<int>)
    requires IsBlock(b) && nblock == |b| <= block.Length && block[..nblock] == b && ptr.Length == nblock
    requires ptr != block && ptr != ftab && block != ftab && Cursors(ftab[..], Keys(b), nblock)
    modifies ptr, ftab
    ensures Cursors(ftab[..], Keys(b), 0) && PlacedFrom(ptr[..], Keys(b), 0)
  {
    hide Cursors, PlacedFrom, IsBlock;
    BlockSize(b);
    NothingPlaced(ptr[..], Keys(b));
    var s: nat := block[0] * 256;
    var i: int := nblock - 1;
    assert block[0] == b[0];
    while i >= 3
      invariant -1 <= i < nblock && Cursors(ftab[..], Keys(b), i + 1) && PlacedFrom(ptr[..], Keys(b), i + 1) && block[..nblock] == b
      invariant i >= 0 ==> s / 256 == b[Succ(nblock, i)]
    {
      s := PlacePair(ptr, block, ftab, nblock, i, s, b);
      KeyRange(b, i);
      s := PlacePair(ptr, block, ftab, nblock, i - 1, s, b);
      KeyRange(b, i - 1);
      s := PlacePair(ptr, block, ftab, nblock, i - 2, s, b);
      KeyRange(b, i - 2);
      s := PlacePair(ptr, block, ftab, nblock, i - 3, s, b);
      KeyRange(b, i - 3);
      i := i - 4;
    }
    while i >= 0
      invariant -1 <= i < nblock && Cursors(ftab[..], Keys(b), i + 1) && PlacedFrom(ptr[..], Keys(b), i + 1) && block[..nblock] == b
      invariant i >= 0 ==> s / 256 == b[Succ(nblock, i)]
    {
      s := PlacePair(ptr, block, ftab, nblock, i, s, b);
      KeyRange(b, i);
      i := i - 1;
    }
  }

  lemma NothingPlaced(p: seq<int>, k: seq<int>)
    requires |p| == |k|
    ensures PlacedFrom(p, k, |k|)
  {
  }

  // ---------------------------------------------------------------- buckets

  /** Where a small bucket starts. */
  ghost function Start(b: seq<int>, c: int): nat { CountLt(Keys(b), |b|, c) }

  /** Every rotation once, and in its small bucket. */
  ghost predicate Bucketed(p: seq<int>, b: seq<int>) {
    IsPermutation(p, |b|) && forall q :: 0 <= q < |b| ==> InBucket(p, b, q)
  }

  ghost predicate InBucket(p: seq<int>, b: seq<int>, q: nat)
    requires q < |p| && 0 <= p[q] < |b|
  {
    Start(b, Keys(b)[p[q]]) <= q < Start(b, Keys(b)[p[q]] + 1)
  }

  lemma PlacedBucketed(p: seq<int>, b: seq<int>)
    requires PlacedFrom(p, Keys(b), 0)
    ensures Bucketed(p, b)
  {
    hide Rank, CountLt, CountEq;
    var k := Keys(b);
    var n := |b|;
    forall q | 0 <= q < n ensures 0 <= p[q] < n && Rank(k, p[q]) == q {
      assert p[Rank(k, Link(k, q))] == Link(k, q);
    }
    forall q | 0 <= q < n ensures InBucket(p, b, q) {
      RankBelowNextSymbol(k, p[q]);
      RankAbove(k, p[q]);
    }
  }

  lemma RankAbove(k: seq<int>, i: nat)
    requires i < |k|
    ensures CountLt(k, |k|, k[i]) <= Rank(k, i)
  {
  }
}
